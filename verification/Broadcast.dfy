/** The live broadcast: one publisher, one hub, any number of subscribers, lost answers and restarts. */
module Broadcast {
  import opened Text

  // ------------------------------------------------------------------------------- the hub

  /** A socket of a subscriber, with the sequences of the states it was sent. */
  datatype Socket = Socket(received: seq<int>, open: bool)

  /** The hub's storage and sockets; `history` lists every state it ever stored, the latest last. */
  datatype HubState = HubState(history: seq<int>, sockets: seq<Socket>)

  function Latest(h: HubState): Option<int> {
    if h.history == [] then None else Some(h.history[|h.history| - 1])
  }

  /** A sequence as the publisher and the health report count it: nothing is zero. */
  function OrZero(latest: Option<int>): int {
    match latest case None => 0 case Some(n) => n
  }

  /** Sending to one socket; where sending fails the socket is closed. */
  function Send(s: Socket, sequence: int, fails: bool): Socket {
    if !s.open then s else if fails then s.(open := false) else s.(received := s.received + [sequence])
  }

  function SendAll(sockets: seq<Socket>, sequence: int, fails: set<nat>): (r: seq<Socket>)
    ensures |r| == |sockets| && forall i :: 0 <= i < |sockets| ==> r[i] == Send(sockets[i], sequence, i in fails)
  {
    seq(|sockets|, i requires 0 <= i < |sockets| => Send(sockets[i], sequence, i in fails))
  }

  datatype Reply = Stored(sequence: int) | Stale(latest: int)

  /** The publish branch of `fetch`. */
  function Store(h: HubState, sequence: int, fails: set<nat>): (HubState, Reply) {
    if Latest(h).Some? && sequence <= Latest(h).value then (h, Stale(Latest(h).value))
    else (HubState(h.history + [sequence], SendAll(h.sockets, sequence, fails)), Stored(sequence))
  }

  /** `acceptSubscriber`: the full latest state, if there is one. */
  function Accept(h: HubState): HubState {
    h.(sockets := h.sockets + [Socket(match Latest(h) case None => [] case Some(n) => [n], true)])
  }

  function Disconnect(h: HubState, i: nat): HubState {
    if i < |h.sockets| then h.(sockets := h.sockets[i := h.sockets[i].(open := false)]) else h
  }

  class LiveHub {
    var latest: Option<int>
    var sockets: seq<Socket>
    ghost var history: seq<int>

    ghost predicate Valid()
      reads this
    {
      latest == Latest(State())
    }

    ghost function State(): HubState
      reads this
    {
      HubState(history, sockets)
    }

    constructor ()
      ensures Valid() && State() == HubState([], [])
    {
      latest, sockets, history := None, [], [];
    }

    method PublishState(sequence: int, fails: set<nat>) returns (reply: Reply)
      requires Valid()
      modifies this
      ensures Valid() && (State(), reply) == Store(old(State()), sequence, fails)
    {
      if latest.Some? && sequence <= latest.value {
        return Stale(latest.value);
      }
      latest, history := Some(sequence), history + [sequence];
      ghost var before := sockets;
      for i := 0 to |sockets|
        invariant |sockets| == |before| && latest == Some(sequence) && history == old(history) + [sequence]
        invariant forall k :: 0 <= k < i ==> sockets[k] == Send(before[k], sequence, k in fails)
        invariant forall k :: i <= k < |sockets| ==> sockets[k] == before[k]
      {
        if sockets[i].open {
          if i in fails {
            sockets := sockets[i := sockets[i].(open := false)];
          } else {
            sockets := sockets[i := sockets[i].(received := sockets[i].received + [sequence])];
          }
        }
      }
      assert sockets == SendAll(before, sequence, fails);
      return Stored(sequence);
    }

    method AcceptSubscriber()
      requires Valid()
      modifies this
      ensures Valid() && State() == Accept(old(State()))
    {
      var received := if latest.Some? then [latest.value] else [];
      sockets := sockets + [Socket(received, true)];
    }
  }

  // -------------------------------------------------------------------------- the publisher

  /** One request: answered, processed but the answer lost, or lost before it arrived. */
  datatype Post = Answered | AnswerLost | Lost

  /** Writing the sequence file: it succeeds, or raises before or after the file is replaced. */
  datatype Write = Written | RaisedBefore | RaisedAfter

  /** The fortune of one call of `publish`: the health report, two requests at most, the write of the sequence file. */
  datatype Fortune = Fortune(healthy: bool, first: Post, second: Post, write: Write, fails: set<nat>, fails2: set<nat>)

  /** What the publisher remembers: in memory until it restarts, and on disk (zero when there is no readable file). */
  datatype Memory = Memory(last: Option<int>, disk: int)

  /** How `publish` ends; `Unsaved` raises although the hub has accepted the state. */
  datatype Outcome = Accepted(sequence: int, posts: nat) | Unsaved(sequence: int, posts: nat) | Failed

  datatype World = World(hub: HubState, memory: Memory)

  function Larger(a: int, b: int): int {
    if a < b then b else a
  }

  /** A request reaches the hub unless it is lost on the way; the publisher hears the reply only if it is answered. */
  function Request(h: HubState, sequence: int, post: Post, fails: set<nat>): (HubState, Option<Reply>) {
    if post == Lost then (h, None)
    else
      var (after, reply) := Store(h, sequence, fails);
      (after, if post == Answered then Some(reply) else None)
  }

  function Acknowledge(w: World, sequence: int, posts: nat, write: Write): (World, Outcome) {
    (World(w.hub, Memory(Some(sequence), if write == RaisedBefore then w.memory.disk else sequence)),
     if write == Written then Accepted(sequence, posts) else Unsaved(sequence, posts))
  }

  /** `publish`, after `reconcile_sequence`. */
  function PublishFrom(w: World, last: int, f: Fortune): (World, Outcome) {
    var remembered := World(w.hub, Memory(Some(last), w.memory.disk));
    var (hub, reply) := Request(w.hub, last + 1, f.first, f.fails);
    match reply
    case None => (remembered.(hub := hub), Failed)
    case Some(Stored(n)) => Acknowledge(remembered.(hub := hub), n, 1, f.write)
    case Some(Stale(latest)) =>
      if latest < last + 1 then (remembered.(hub := hub), Failed)
      else
        var caughtUp := World(hub, Memory(Some(latest), w.memory.disk));
        var (hub2, reply2) := Request(hub, latest + 1, f.second, f.fails2);
        match reply2
        case Some(Stored(n)) => Acknowledge(caughtUp.(hub := hub2), n, 2, f.write)
        case _ => (caughtUp.(hub := hub2), Failed)
  }

  /** `ContinuousLivePublisher.publish`. */
  function Publish(w: World, f: Fortune): (World, Outcome) {
    match w.memory.last
    case Some(last) => PublishFrom(w, last, f)
    case None =>
      if !f.healthy then (w, Failed) else PublishFrom(w, Larger(w.memory.disk, Larger(0, OrZero(Latest(w.hub)))), f)
  }

  class ContinuousLivePublisher {
    const hub: LiveHub
    var lastSequence: Option<int>
    var disk: int

    constructor (hub: LiveHub, disk: int)
      ensures this.hub == hub && lastSequence == None && this.disk == disk
    {
      this.hub, lastSequence, this.disk := hub, None, disk;
    }

    ghost function State(): World
      reads this, hub
    {
      World(hub.State(), Memory(lastSequence, disk))
    }

    /** One request to the hub over the network. */
    method Send(sequence: int, post: Post, fails: set<nat>) returns (reply: Option<Reply>)
      requires hub.Valid()
      modifies hub
      ensures hub.Valid() && (hub.State(), reply) == Request(old(hub.State()), sequence, post, fails)
    {
      if post == Lost {
        return None;
      }
      var answer := hub.PublishState(sequence, fails);
      return if post == Answered then Some(answer) else None;
    }

    method ReconcileSequence()
      requires hub.Valid()
      modifies this
      ensures lastSequence == Some(Larger(disk, Larger(0, OrZero(Latest(hub.State()))))) && disk == old(disk)
    {
      var remote := if hub.latest.Some? && hub.latest.value > 0 then hub.latest.value else 0;
      lastSequence := Some(if disk < remote then remote else disk);
    }

    method PublishStatus(f: Fortune) returns (r: Outcome)
      requires hub.Valid()
      modifies this, hub
      ensures hub.Valid() && (State(), r) == Publish(old(State()), f)
    {
      if lastSequence.None? {
        if !f.healthy {
          return Failed;
        }
        ReconcileSequence();
      }
      var sequence := lastSequence.value + 1;
      var posts: nat := 1;
      var reply := Send(sequence, f.first, f.fails);
      if reply.Some? && reply.value.Stale? {
        var latest := reply.value.latest;
        if latest < sequence {
          return Failed;
        }
        lastSequence := Some(latest);
        sequence, posts := latest + 1, 2;
        reply := Send(sequence, f.second, f.fails2);
      }
      if reply.None? || reply.value.Stale? {
        return Failed;
      }
      lastSequence := Some(sequence);
      if f.write == RaisedBefore {
        return Unsaved(sequence, posts);
      }
      disk := sequence;
      return if f.write == RaisedAfter then Unsaved(sequence, posts) else Accepted(sequence, posts);
    }
  }

  // --------------------------------------------------------------------------------- runs

  datatype Event =
    | Subscribing
    | Leaving(socket: nat)
    | Publishing(f: Fortune)
    | Restarting
    | LosingFile

  function Step(w: World, e: Event): World {
    match e
    case Subscribing => w.(hub := Accept(w.hub))
    case Leaving(i) => w.(hub := Disconnect(w.hub, i))
    case Publishing(f) => Publish(w, f).0
    case Restarting => w.(memory := w.memory.(last := None))
    case LosingFile => w.(memory := w.memory.(disk := 0))
  }

  function Run(w: World, events: seq<Event>): World {
    if events == [] then w else Step(Run(w, events[..|events| - 1]), events[|events| - 1])
  }

  const START := World(HubState([], []), Memory(None, 0))

  ghost predicate Ascends(s: seq<int>) {
    forall i, j :: 0 <= i < j < |s| ==> s[i] < s[j]
  }

  predicate AtMost(s: seq<int>, n: int) {
    forall i :: 0 <= i < |s| ==> s[i] <= n
  }

  ghost predicate HubInOrder(h: HubState) {
    && Ascends(h.history) && (forall i :: 0 <= i < |h.history| ==> h.history[i] > 0)
    && forall i :: 0 <= i < |h.sockets| ==> Ascends(h.sockets[i].received) && AtMost(h.sockets[i].received, OrZero(Latest(h)))
  }

  predicate RemembersAtMost(m: Memory, n: int) {
    0 <= m.disk <= n && (m.last.Some? ==> 0 <= m.last.value <= n)
  }

  /** What every step keeps. */
  ghost predicate InOrder(w: World) {
    HubInOrder(w.hub) && RemembersAtMost(w.memory, OrZero(Latest(w.hub)))
  }

  lemma StoreInOrder(h: HubState, sequence: int, fails: set<nat>)
    requires HubInOrder(h) && sequence > 0
    ensures var (after, reply) := Store(h, sequence, fails);
      && HubInOrder(after) && OrZero(Latest(after)) >= OrZero(Latest(h)) && h.history <= after.history
      && (reply.Stored? ==> OrZero(Latest(after)) == sequence)
      && (reply.Stale? ==> after == h && reply.latest == OrZero(Latest(h)) >= sequence)
  {
    var (after, reply) := Store(h, sequence, fails);
    if reply.Stored? {
      assert after.history[|h.history|] == sequence;
      forall i | 0 <= i < |h.sockets|
        ensures Ascends(after.sockets[i].received) && AtMost(after.sockets[i].received, sequence)
      {
        assert Ascends(h.sockets[i].received) && AtMost(h.sockets[i].received, OrZero(Latest(h)));
      }
    }
  }

  lemma RequestInOrder(h: HubState, sequence: int, post: Post, fails: set<nat>)
    requires HubInOrder(h) && sequence > 0
    ensures var (after, reply) := Request(h, sequence, post, fails);
      && HubInOrder(after) && OrZero(Latest(after)) >= OrZero(Latest(h)) && h.history <= after.history
      && (reply.Some? && reply.value.Stored? ==> reply.value.sequence == sequence == OrZero(Latest(after)))
      && (reply.Some? && reply.value.Stale? ==> after == h && reply.value.latest == OrZero(Latest(h)) >= sequence)
  {
    StoreInOrder(h, sequence, fails);
    hide HubInOrder, Latest;
  }

  lemma PublishFromInOrder(w: World, last: int, f: Fortune)
    requires InOrder(w) && 0 <= last <= OrZero(Latest(w.hub))
    ensures InOrder(PublishFrom(w, last, f).0) && w.hub.history <= PublishFrom(w, last, f).0.hub.history
  {
    hide HubInOrder, Request, Latest;
    RequestInOrder(w.hub, last + 1, f.first, f.fails);
    var (hub, reply) := Request(w.hub, last + 1, f.first, f.fails);
    if reply.Some? && reply.value.Stale? {
      var latest := reply.value.latest;
      RequestInOrder(hub, latest + 1, f.second, f.fails2);
      var (hub2, reply2) := Request(hub, latest + 1, f.second, f.fails2);
      assert hub == w.hub && latest == OrZero(Latest(w.hub)) <= OrZero(Latest(hub2));
      assert PublishFrom(w, last, f).0.hub == hub2;
    }
  }

  lemma PublishInOrder(w: World, f: Fortune)
    requires InOrder(w)
    ensures InOrder(Publish(w, f).0) && w.hub.history <= Publish(w, f).0.hub.history
  {
    hide HubInOrder, PublishFrom, Latest;
    if w.memory.last.Some? {
      PublishFromInOrder(w, w.memory.last.value, f);
    } else if f.healthy {
      PublishFromInOrder(w, Larger(w.memory.disk, Larger(0, OrZero(Latest(w.hub)))), f);
    }
  }

  lemma StepInOrder(w: World, e: Event)
    requires InOrder(w)
    ensures InOrder(Step(w, e)) && w.hub.history <= Step(w, e).hub.history
  {
    hide Publish;
    match e
    case Publishing(f) => PublishInOrder(w, f);
    case Subscribing => LatestIsPositive(w.hub);
    case _ =>
  }

  lemma LatestIsPositive(h: HubState)
    ensures forall n :: Ascends([n]) && AtMost([n], n)
  {}

  /**
    Over every run the sequences the hub stores strictly increase, what the publisher remembers in
    memory and on disk never exceeds the hub's latest, and each subscriber is sent strictly increasing states.
   */
  lemma {:induction false} EveryRunInOrder(events: seq<Event>)
    ensures InOrder(Run(START, events))
  {
    hide Step, InOrder;
    if events == [] {
      StartInOrder();
    } else {
      EveryRunInOrder(events[..|events| - 1]);
      StepInOrder(Run(START, events[..|events| - 1]), events[|events| - 1]);
    }
  }

  lemma StartInOrder()
    ensures InOrder(START)
  {}

  /** What the hub stored it keeps in its history: later events only add to it. */
  lemma {:induction false} HistoryGrows(events: seq<Event>, n: nat)
    requires n <= |events|
    ensures Run(START, events[..n]).hub.history <= Run(START, events).hub.history
    decreases |events| - n
  {
    hide Step, InOrder;
    if n < |events| {
      assert events[..n + 1][..n] == events[..n];
      EveryRunInOrder(events[..n]);
      StepInOrder(Run(START, events[..n]), events[n]);
      HistoryGrows(events, n + 1);
    } else {
      assert events[..n] == events;
    }
  }

  /**
    Whatever has happened before, a publish whose requests are answered is accepted by the hub with one
    or two requests, with a sequence beyond everything stored; the second is needed exactly when the hub
    is ahead, and the call returns exactly when its sequence file is written.
   */
  lemma AcceptedWithinTwo(w: World, f: Fortune)
    requires f.first == Answered && f.second == Answered && (w.memory.last.Some? || f.healthy)
    ensures var (after, r) := Publish(w, f);
      && !r.Failed? && 1 <= r.posts <= 2 && (r.Accepted? <==> f.write == Written)
      && after.hub.history == w.hub.history + [r.sequence] && (Latest(w.hub).Some? ==> r.sequence > Latest(w.hub).value)
      && after.memory.last == Some(r.sequence) && after.memory.disk == (if f.write == RaisedBefore then w.memory.disk else r.sequence)
      && (r.posts == 2 <==> w.memory.last.Some? && Latest(w.hub).Some? && w.memory.last.value < Latest(w.hub).value)
  {
    hide SendAll;
  }

  /** A lost answer costs the next publish one more request, never a repeated sequence. */
  lemma LostAnswerIsCaughtUp(w: World, f: Fortune, g: Fortune)
    requires InOrder(w) && w.memory.last == Some(OrZero(Latest(w.hub))) && f.first == AnswerLost
    requires g.first == Answered && g.second == Answered && g.write == Written
    ensures var after := Publish(w, f).0;
      var (end, r) := Publish(after, g);
      r == Accepted(OrZero(Latest(w.hub)) + 2, 2) && end.hub.history == w.hub.history + [OrZero(Latest(w.hub)) + 1, OrZero(Latest(w.hub)) + 2]
  {
    LatestPositive(w);
    var last := OrZero(Latest(w.hub));
    var after := Publish(w, f).0;
    assert after.hub.history == w.hub.history + [last + 1] && after.memory.last == Some(last);
    AcceptedWithinTwo(after, g);
  }

  lemma LatestPositive(w: World)
    requires InOrder(w)
    ensures Latest(w.hub).Some? ==> Latest(w.hub).value > 0
  {}
}
