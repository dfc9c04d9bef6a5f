/** Following a growing quote file: the cache that reads on from where it stopped, and reading everything again. */
module QuoteReader {
  import opened Text
  import opened Sorting

  /** A quote as parsed; `rest` stands for its other fields. */
  datatype Observation = Observation(event: int, received: int, rest: int)

  /** The parser of one line; `None` is a record that is not JSON or not UTF-8. */
  type Parser = Bytes -> Option<Observation>

  /** Sixty-one minutes in microseconds. */
  const LOOKBACK: int := 61 * 60 * 1_000_000

  const NEWLINE: byte := 10

  // -------------------------------------------------------------------------------- lines

  /** The length of the first line of some bytes, line break included; `None` when no line is complete. */
  function FirstLine(b: Bytes): (r: Option<nat>)
    ensures r.Some? ==> 0 < r.value <= |b|
  {
    if b == [] then None
    else if b[0] == NEWLINE then Some(1)
    else
      match FirstLine(b[1..])
      case None => None
      case Some(n) => Some(n + 1)
  }

  /** A line ends at its first line break; without one it is not complete. */
  lemma {:induction false} FirstLineEnds(b: Bytes)
    ensures match FirstLine(b)
      case None => NEWLINE !in b
      case Some(n) => b[n - 1] == NEWLINE && NEWLINE !in b[..n - 1]
  {
    if b != [] && b[0] != NEWLINE {
      FirstLineEnds(b[1..]);
      assert b == [b[0]] + b[1..];
      if FirstLine(b).Some? {
        var n := FirstLine(b).value;
        assert b[..n - 1] == [b[0]] + b[1..][..n - 2];
      }
    }
  }

  /** The complete lines. */
  function Lines(b: Bytes): seq<Bytes>
    decreases |b|
  {
    match FirstLine(b)
    case None => []
    case Some(n) => [b[..n]] + Lines(b[n..])
  }

  /** How far the complete lines reach. */
  function Reach(b: Bytes): (r: nat)
    ensures r <= |b|
    decreases |b|
  {
    match FirstLine(b)
    case None => 0
    case Some(n) => n + Reach(b[n..])
  }

  function Records(parse: Parser, lines: seq<Bytes>): seq<Observation> {
    if lines == [] then []
    else (match parse(lines[0]) case None => [] case Some(o) => [o]) + Records(parse, lines[1..])
  }

  // --------------------------------------------------------------------- reading it all

  predicate Qualifies(o: Observation, decision: int) {
    decision - LOOKBACK <= o.event <= decision && o.received <= decision
  }

  function Visible(os: seq<Observation>, decision: int): seq<Observation> {
    if os == [] then []
    else (if Qualifies(os[0], decision) then [os[0]] else []) + Visible(os[1..], decision)
  }

  function TimeKey(o: Observation): seq<int> {
    [o.event, o.received]
  }

  /** The file as it is read from scratch: every complete line parsed, filtered, sorted stably by its two times. */
  function Reread(parse: Parser, file: Option<Bytes>, decision: int): seq<Observation> {
    match file
    case None => []
    case Some(content) => SortBy(Visible(Records(parse, Lines(content)), decision), TimeKey)
  }

  // ------------------------------------------------------------------- reading what is new

  datatype Reader = Reader(offset: nat, cache: seq<Observation>)

  function Evict(cache: seq<Observation>, cutoff: int): seq<Observation> {
    if cache != [] && cache[0].event < cutoff then Evict(cache[1..], cutoff) else cache
  }

  /** `observations`; `None` is the error for a file that has become shorter. */
  function Observe(r: Reader, parse: Parser, file: Option<Bytes>, decision: int): (Reader, Option<seq<Observation>>) {
    match file
    case None => (r, Some([]))
    case Some(content) =>
      if |content| < r.offset then (r, None)
      else
        var unread := content[r.offset..];
        var cache := Evict(r.cache + Records(parse, Lines(unread)), decision - LOOKBACK);
        (Reader(r.offset + Reach(unread), cache), Some(SortBy(Visible(cache, decision), TimeKey)))
  }

  lemma LinesStep(b: Bytes, pos: nat)
    requires pos <= |b|
    ensures match FirstLine(b[pos..])
      case None => Lines(b[pos..]) == [] && Reach(b[pos..]) == 0
      case Some(n) => Lines(b[pos..]) == [b[pos..pos + n]] + Lines(b[pos + n..]) && Reach(b[pos..]) == n + Reach(b[pos + n..])
  {
    hide FirstLine;
    var c := b[pos..];
    if FirstLine(c).Some? {
      var n := FirstLine(c).value;
      assert c[..n] == b[pos..pos + n] && c[n..] == b[pos + n..];
    }
  }

  class JsonlMarketProvider {
    const parse: Parser
    var offset: nat
    var cache: seq<Observation>

    ghost function State(): Reader
      reads this
    {
      Reader(offset, cache)
    }

    constructor (parse: Parser)
      ensures this.parse == parse && State() == Reader(0, [])
    {
      this.parse := parse;
      offset, cache := 0, [];
    }

    /** `_append_record`: a malformed record is passed over. */
    method AppendRecord(raw: Bytes)
      modifies this
      ensures offset == old(offset) && cache == old(cache) + Records(parse, [raw])
    {
      var observation := parse(raw);
      assert Records(parse, [raw][1..]) == [];
      if observation.Some? {
        cache := cache + [observation.value];
      }
    }

    /** `_load_incremental`: complete lines are consumed, a partial last line is left for the next call. */
    method LoadIncremental(content: Bytes) returns (ok: bool)
      modifies this
      ensures ok == (|content| >= old(offset))
      ensures !ok ==> State() == old(State())
      ensures ok ==> offset == old(offset) + Reach(content[old(offset)..])
                     && cache == old(cache) + Records(parse, Lines(content[old(offset)..]))
    {
      hide FirstLine, Lines, Reach, Records;
      if |content| < offset {
        return false;
      }
      var pos := offset;
      while true
        invariant old(offset) <= pos <= |content| && offset == old(offset)
        invariant pos + Reach(content[pos..]) == old(offset) + Reach(content[old(offset)..])
        invariant cache + Records(parse, Lines(content[pos..])) == old(cache) + Records(parse, Lines(content[old(offset)..]))
        decreases |content| - pos
      {
        LinesStep(content, pos);
        var line := FirstLine(content[pos..]);
        if line.None? {
          break;
        }
        var raw := content[pos..pos + line.value];
        RecordsStep(parse, raw, Lines(content[pos + line.value..]), cache);
        AppendRecord(raw);
        pos := pos + line.value;
      }
      NoRecords(parse);
      assert cache + [] == cache;
      offset := pos;
      return true;
    }

    method Observations(file: Option<Bytes>, decision: int) returns (r: Option<seq<Observation>>)
      modifies this
      ensures (State(), r) == Observe(old(State()), parse, file, decision)
    {
      if file.None? {
        return Some([]);
      }
      var ok := LoadIncremental(file.value);
      if !ok {
        return None;
      }
      var cutoff := decision - LOOKBACK;
      ghost var loaded := cache;
      while cache != [] && cache[0].event < cutoff
        invariant Evict(cache, cutoff) == Evict(loaded, cutoff)
        invariant offset == old(offset) + Reach(file.value[old(offset)..])
        decreases |cache|
      {
        cache := cache[1..];
      }
      return Some(SortBy(Visible(cache, decision), TimeKey));
    }
  }

  lemma RecordsStep(parse: Parser, raw: Bytes, rest: seq<Bytes>, before: seq<Observation>)
    ensures before + Records(parse, [raw] + rest) == before + Records(parse, [raw]) + Records(parse, rest)
  {
    RecordsConcat(parse, [raw], rest);
    assert before + (Records(parse, [raw]) + Records(parse, rest)) == before + Records(parse, [raw]) + Records(parse, rest);
  }

  lemma NoRecords(parse: Parser)
    ensures Records(parse, []) == []
  {}

  // --------------------------------------------------------------------- the two agree

  lemma {:induction false} RecordsConcat(parse: Parser, a: seq<Bytes>, b: seq<Bytes>)
    ensures Records(parse, a + b) == Records(parse, a) + Records(parse, b)
  {
    if a == [] {
      assert a + b == b;
    } else {
      assert (a + b)[1..] == a[1..] + b;
      RecordsConcat(parse, a[1..], b);
    }
  }

  lemma {:induction false} FirstLineStays(a: Bytes, b: Bytes)
    requires FirstLine(a).Some?
    ensures FirstLine(a + b) == FirstLine(a)
  {
    if a[0] != NEWLINE {
      assert (a + b)[1..] == a[1..] + b;
      FirstLineStays(a[1..], b);
    }
  }

  /** Reading on after the complete lines of a beginning gives the remaining lines of the whole. */
  lemma {:induction false} ReadingOn(a: Bytes, b: Bytes)
    ensures Lines(a + b) == Lines(a) + Lines((a + b)[Reach(a)..])
    ensures Reach(a + b) == Reach(a) + Reach((a + b)[Reach(a)..])
    decreases |a|
  {
    hide FirstLine, Lines, Reach;
    LinesStart(a);
    LinesStart(a + b);
    match FirstLine(a)
    case None => assert (a + b)[0..] == a + b;
    case Some(n) =>
      FirstLineStays(a, b);
      var tail := a[n..];
      assert (a + b)[..n] == a[..n] && (a + b)[n..] == tail + b;
      ReadingOn(tail, b);
      assert (tail + b)[Reach(tail)..] == (a + b)[Reach(a)..];
      assert [a[..n]] + (Lines(tail) + Lines((a + b)[Reach(a)..])) == [a[..n]] + Lines(tail) + Lines((a + b)[Reach(a)..]);
  }

  lemma LinesStart(b: Bytes)
    ensures match FirstLine(b)
      case None => Lines(b) == [] && Reach(b) == 0
      case Some(n) => Lines(b) == [b[..n]] + Lines(b[n..]) && Reach(b) == n + Reach(b[n..])
  {
    hide FirstLine;
  }

  /** What the reader holds after a file of this content, with cut-offs up to this one: all records but some too old to matter. */
  ghost predicate Follows(r: Reader, parse: Parser, content: Bytes, cutoff: int, evicted: seq<Observation>) {
    && r.offset == Reach(content)
    && Records(parse, Lines(content)) == evicted + r.cache
    && forall i :: 0 <= i < |evicted| ==> evicted[i].event < cutoff
  }

  lemma {:induction false} EvictSplits(cache: seq<Observation>, cutoff: int) returns (gone: seq<Observation>)
    ensures cache == gone + Evict(cache, cutoff) && forall i :: 0 <= i < |gone| ==> gone[i].event < cutoff
  {
    if cache != [] && cache[0].event < cutoff {
      var rest := EvictSplits(cache[1..], cutoff);
      gone := [cache[0]] + rest;
    } else {
      gone := [];
    }
  }

  lemma {:induction false} OldAreInvisible(gone: seq<Observation>, rest: seq<Observation>, decision: int)
    requires forall i :: 0 <= i < |gone| ==> gone[i].event < decision - LOOKBACK
    ensures Visible(gone + rest, decision) == Visible(rest, decision)
  {
    if gone == [] {
      assert gone + rest == rest;
    } else {
      assert (gone + rest)[1..] == gone[1..] + rest;
      OldAreInvisible(gone[1..], rest, decision);
    }
  }

  /** One call on a file that has only grown: what it leaves out is what was let go before and still qualifies. */
  lemma ObserveMisses(r: Reader, parse: Parser, before: Bytes, content: Bytes, cutoff: int, evicted: seq<Observation>, decision: int)
    returns (gone: seq<Observation>)
    requires Follows(r, parse, before, cutoff, evicted) && before <= content
    ensures var (after, answer) := Observe(r, parse, Some(content), decision);
      && (forall bound :: bound >= cutoff && bound >= decision - LOOKBACK ==> Follows(after, parse, content, bound, evicted + gone))
      && Records(parse, Lines(content)) == evicted + gone + after.cache
      && answer.Some? && (answer == Some(Reread(parse, Some(content), decision)) <==> NoneQualifies(evicted, decision))
  {
    hide SortBy, Visible, Lines, Reach, Records, Evict, Qualifies;
    assert content == before + content[|before|..];
    ReadingOn(before, content[|before|..]);
    var unread := content[Reach(before)..];
    RecordsConcat(parse, Lines(before), Lines(unread));
    var loaded := r.cache + Records(parse, Lines(unread));
    gone := EvictSplits(loaded, decision - LOOKBACK);
    var cache := Evict(loaded, decision - LOOKBACK);
    assert evicted + r.cache + Records(parse, Lines(unread)) == evicted + loaded;
    assert evicted + (gone + cache) == evicted + gone + cache;
    OldAreInvisible(gone, cache, decision);
    MissedIff(evicted, gone + cache, decision);
  }

  predicate NoneQualifies(os: seq<Observation>, decision: int) {
    forall i :: 0 <= i < |os| ==> !Qualifies(os[i], decision)
  }

  lemma {:induction false} VisibleConcat(a: seq<Observation>, b: seq<Observation>, decision: int)
    ensures Visible(a + b, decision) == Visible(a, decision) + Visible(b, decision)
  {
    hide Qualifies;
    if a == [] {
      assert a + b == b;
    } else {
      assert (a + b)[1..] == a[1..] + b;
      VisibleConcat(a[1..], b, decision);
    }
  }

  lemma {:induction false} NothingVisible(os: seq<Observation>, decision: int)
    ensures Visible(os, decision) == [] <==> NoneQualifies(os, decision)
  {
    if os != [] {
      NothingVisible(os[1..], decision);
      assert os == [os[0]] + os[1..];
    }
  }

  /** Sorting keeps the number of rows, so leaving rows out shows. */
  lemma MissedIff(missed: seq<Observation>, rest: seq<Observation>, decision: int)
    ensures SortBy(Visible(rest, decision), TimeKey) == SortBy(Visible(missed + rest, decision), TimeKey) <==> NoneQualifies(missed, decision)
  {
    hide Visible, NoneQualifies;
    VisibleConcat(missed, rest, decision);
    NothingVisible(missed, decision);
    assert [] + Visible(rest, decision) == Visible(rest, decision);
  }

  datatype Call = Call(file: Option<Bytes>, decision: int)

  function Grown(file: Option<Bytes>): Bytes {
    match file case None => [] case Some(content) => content
  }

  /** The file is only appended to, and once it exists it stays; decision times are arbitrary. */
  ghost predicate FileGrows(calls: seq<Call>) {
    forall i, j :: 0 <= i < j < |calls| ==>
      Grown(calls[i].file) <= Grown(calls[j].file) && (calls[i].file.Some? ==> calls[j].file.Some?)
  }

  ghost predicate DecisionsUpTo(calls: seq<Call>, latest: int) {
    forall i :: 0 <= i < |calls| ==> calls[i].decision <= latest
  }

  /** Besides, decision times do not go back. */
  ghost predicate InOrder(calls: seq<Call>) {
    FileGrows(calls) && forall i, j :: 0 <= i < j < |calls| ==> calls[i].decision <= calls[j].decision
  }

  function After(parse: Parser, calls: seq<Call>): Reader {
    if calls == [] then Reader(0, [])
    else Observe(After(parse, calls[..|calls| - 1]), parse, calls[|calls| - 1].file, calls[|calls| - 1].decision).0
  }

  /** The call after a history of calls. */
  function Answer(parse: Parser, calls: seq<Call>, call: Call): Option<seq<Observation>> {
    Observe(After(parse, calls), parse, call.file, call.decision).1
  }

  function LastContent(calls: seq<Call>): Bytes {
    if calls == [] then [] else Grown(calls[|calls| - 1].file)
  }

  /** The rows a history has let go: the complete lines' records that are no longer in the cache, which holds the last of them. */
  function LetGo(parse: Parser, calls: seq<Call>): seq<Observation> {
    var all, kept := Records(parse, Lines(LastContent(calls))), After(parse, calls).cache;
    if |kept| <= |all| then all[..|all| - |kept|] else []
  }

  lemma {:induction false} HistoryFollows(parse: Parser, calls: seq<Call>, latest: int)
    requires FileGrows(calls) && DecisionsUpTo(calls, latest)
    ensures Follows(After(parse, calls), parse, LastContent(calls), latest - LOOKBACK, LetGo(parse, calls))
    ensures calls != [] ==>
      var n := |calls| - 1;
      var answer := Answer(parse, calls[..n], calls[n]);
      && answer.Some?
      && (answer == Some(Reread(parse, calls[n].file, calls[n].decision)) <==> NoneQualifies(LetGo(parse, calls[..n]), calls[n].decision))
  {
    hide Observe, Reread, Follows, Lines, Reach, Records, NoneQualifies, LetGo;
    if calls == [] {
      NothingRead(parse, latest - LOOKBACK);
    } else {
      var n := |calls| - 1;
      HistoryFollows(parse, calls[..n], latest);
      assert n > 0 ==> Grown(calls[n - 1].file) <= Grown(calls[n].file) && (calls[n - 1].file.Some? ==> calls[n].file.Some?);
      if calls[n].file.None? {
        NothingSoFar(parse, calls, latest);
      } else {
        var evicted := LetGo(parse, calls[..n]);
        var gone := ObserveMisses(After(parse, calls[..n]), parse, LastContent(calls[..n]), calls[n].file.value,
                                  latest - LOOKBACK, evicted, calls[n].decision);
        assert After(parse, calls) == Observe(After(parse, calls[..n]), parse, calls[n].file, calls[n].decision).0;
        LetGoIs(parse, calls, evicted + gone);
      }
    }
  }

  lemma LetGoIs(parse: Parser, calls: seq<Call>, evicted: seq<Observation>)
    requires Records(parse, Lines(LastContent(calls))) == evicted + After(parse, calls).cache
    ensures LetGo(parse, calls) == evicted
  {
    hide Records, Lines, After;
  }

  lemma NothingRead(parse: Parser, cutoff: int)
    ensures Follows(After(parse, []), parse, LastContent([]), cutoff, LetGo(parse, []))
  {}

  /** Before the file exists there is nothing to read or to let go. */
  lemma {:induction false} NothingSoFar(parse: Parser, calls: seq<Call>, latest: int)
    requires FileGrows(calls) && calls != [] && calls[|calls| - 1].file.None?
    ensures After(parse, calls) == Reader(0, []) && LastContent(calls) == [] && LetGo(parse, calls) == [] && LetGo(parse, calls[..|calls| - 1]) == []
    ensures Follows(After(parse, calls), parse, LastContent(calls), latest - LOOKBACK, LetGo(parse, calls))
    ensures Answer(parse, calls[..|calls| - 1], calls[|calls| - 1]) == Some([]) == Some(Reread(parse, None, calls[|calls| - 1].decision))
    ensures NoneQualifies(LetGo(parse, calls[..|calls| - 1]), calls[|calls| - 1].decision)
    decreases |calls|
  {
    var n := |calls| - 1;
    if n > 0 {
      assert calls[..n][n - 1] == calls[n - 1];
      assert calls[n - 1].file.None?;
      NothingSoFar(parse, calls[..n], latest);
    }
  }

  /**
    However the file was growing between the calls and whatever their decision times, a call answers as
    if it had read the whole file exactly when no row let go before would qualify for it.
   */
  lemma CallAgreesIff(parse: Parser, calls: seq<Call>, k: nat)
    requires FileGrows(calls) && k < |calls|
    ensures Records(parse, Lines(LastContent(calls[..k]))) == LetGo(parse, calls[..k]) + After(parse, calls[..k]).cache
    ensures var answer := Answer(parse, calls[..k], calls[k]);
      && answer.Some?
      && (answer == Some(Reread(parse, calls[k].file, calls[k].decision)) <==> NoneQualifies(LetGo(parse, calls[..k]), calls[k].decision))
  {
    hide Answer, Reread, LetGo, NoneQualifies, After, Records, Lines;
    var latest := LatestDecision(calls[..k + 1]);
    HistoryFollows(parse, calls[..k + 1], latest);
    HistoryFollows(parse, calls[..k], latest);
    assert calls[..k + 1][..k] == calls[..k];
  }

  lemma {:induction false} LatestDecision(calls: seq<Call>) returns (latest: int)
    ensures DecisionsUpTo(calls, latest)
  {
    if calls == [] {
      latest := 0;
    } else {
      var n := |calls| - 1;
      var before := LatestDecision(calls[..n]);
      latest := if before < calls[n].decision then calls[n].decision else before;
      assert forall i :: 0 <= i < n ==> calls[..n][i] == calls[i];
    }
  }

  /**
    When decision times do not go back, every call of a history answers as if it had read the whole
    file: each complete line is taken once, a partial line never, and no row let go would have qualified again.
   */
  lemma EveryCallAgrees(parse: Parser, calls: seq<Call>, k: nat)
    requires InOrder(calls) && k < |calls|
    ensures Answer(parse, calls[..k], calls[k]) == Some(Reread(parse, calls[k].file, calls[k].decision))
  {
    hide Answer, Reread, LetGo, Lines, Reach, Records, After;
    CallAgreesIff(parse, calls, k);
    HistoryFollows(parse, calls[..k], calls[k].decision);
  }

  /** A row let go for a later decision is missing from every earlier one that it qualifies for. */
  lemma EarlierDecisionsLoseRows(parse: Parser, line: Bytes, o: Observation, later: int, earlier: int)
    requires FirstLine(line) == Some(|line|) && parse(line) == Some(o)
    requires o.event < later - LOOKBACK && Qualifies(o, earlier)
    ensures earlier < later
    ensures Answer(parse, [Call(Some(line), later)], Call(Some(line), earlier)) == Some([]) && Reread(parse, Some(line), earlier) == [o]
  {
    hide Observe, FirstLine, SortBy;
    FirstTime(parse, line, o, later);
    SecondTime(parse, line, o, earlier);
    var calls := [Call(Some(line), later)];
    assert calls[..0] == [] && After(parse, []) == Reader(0, []);
    assert After(parse, calls) == Reader(|line|, []);
  }

  lemma FirstTime(parse: Parser, line: Bytes, o: Observation, later: int)
    requires FirstLine(line) == Some(|line|) && parse(line) == Some(o) && o.event < later - LOOKBACK
    ensures Observe(Reader(0, []), parse, Some(line), later).0 == Reader(|line|, [])
  {
    hide Lines, Reach, Records, FirstLine, SortBy, Visible;
    OneLine(parse, line, o);
    assert line[0..] == line && [] + [o] == [o] && [o][1..] == [];
    assert Evict([o], later - LOOKBACK) == [];
  }

  lemma SecondTime(parse: Parser, line: Bytes, o: Observation, earlier: int)
    requires FirstLine(line) == Some(|line|) && parse(line) == Some(o) && Qualifies(o, earlier)
    ensures Observe(Reader(|line|, []), parse, Some(line), earlier).1 == Some([]) && Reread(parse, Some(line), earlier) == [o]
  {
    hide Lines, Reach, Records, FirstLine, SortBy, Qualifies;
    OneLine(parse, line, o);
    assert line[|line|..] == [] && [o][1..] == [] && [o] + [] == [o];
    OneSorts(o);
  }

  lemma OneLine(parse: Parser, line: Bytes, o: Observation)
    requires FirstLine(line) == Some(|line|) && parse(line) == Some(o)
    ensures Records(parse, Lines(line)) == [o] && Reach(line) == |line|
    ensures Records(parse, Lines([])) == [] && Reach([]) == 0
  {
    hide FirstLine;
    LinesStart(line);
    LinesStart([]);
    assert FirstLine([]) == None by { NothingIsNoLine(); }
    assert line[..|line|] == line && line[|line|..] == [];
    assert [line][1..] == [];
  }

  lemma NothingIsNoLine()
    ensures FirstLine([]) == None
  {}

  lemma OneSorts(o: Observation)
    ensures SortBy([o], TimeKey) == [o] && SortBy([], TimeKey) == []
  {
    assert o in [o];
    assert o in SortBy([o], TimeKey);
  }
}
