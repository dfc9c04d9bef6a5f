/** What subscribers of the live broadcast receive. */
module BroadcastDelivery {
  import opened Broadcast

  /** A subscriber has received consecutive stored states; one still connected has them up to the latest, if there is any. */
  ghost predicate Receives(history: seq<int>, s: Socket) {
    exists j, k :: 0 <= j <= k <= |history| && IsSlice(history, s, j, k)
  }

  predicate IsSlice(history: seq<int>, s: Socket, j: nat, k: nat)
    requires j <= k <= |history|
  {
    s.received == history[j..k] && (s.open ==> k == |history| && (history != [] ==> j < k))
  }

  ghost predicate AllReceive(h: HubState) {
    forall i :: 0 <= i < |h.sockets| ==> Receives(h.history, h.sockets[i])
  }

  lemma SendReceives(history: seq<int>, s: Socket, sequence: int, fails: bool)
    requires Receives(history, s)
    ensures Receives(history + [sequence], Broadcast.Send(s, sequence, fails))
  {
    var j, k :| 0 <= j <= k <= |history| && IsSlice(history, s, j, k);
    var after := history + [sequence];
    if s.open && !fails {
      assert after[j..k + 1] == history[j..k] + [sequence];
      assert IsSlice(after, Broadcast.Send(s, sequence, fails), j, k + 1);
    } else {
      assert after[j..k] == history[j..k];
      assert IsSlice(after, Broadcast.Send(s, sequence, fails), j, k);
    }
  }

  lemma StoreReceives(h: HubState, sequence: int, fails: set<nat>)
    requires AllReceive(h)
    ensures AllReceive(Store(h, sequence, fails).0)
  {
    hide Receives, Broadcast.Send;
    forall i | 0 <= i < |h.sockets|
      ensures Receives(h.history + [sequence], Broadcast.Send(h.sockets[i], sequence, i in fails))
    {
      SendReceives(h.history, h.sockets[i], sequence, i in fails);
    }
  }

  lemma AcceptReceives(h: HubState)
    requires AllReceive(h)
    ensures AllReceive(Accept(h))
  {
    hide Receives;
    var s := Accept(h).sockets[|h.sockets|];
    NewReceives(h, s);
  }

  lemma NewReceives(h: HubState, s: Socket)
    requires s == Accept(h).sockets[|h.sockets|]
    ensures Receives(h.history, s)
  {
    if h.history == [] {
      assert IsSlice(h.history, s, 0, 0);
    } else {
      assert h.history[|h.history| - 1..|h.history|] == [h.history[|h.history| - 1]];
      assert IsSlice(h.history, s, |h.history| - 1, |h.history|);
    }
  }

  lemma DisconnectReceives(h: HubState, i: nat)
    requires AllReceive(h)
    ensures AllReceive(Disconnect(h, i))
  {
    if i < |h.sockets| {
      var j, k :| 0 <= j <= k <= |h.history| && IsSlice(h.history, h.sockets[i], j, k);
      assert IsSlice(h.history, h.sockets[i].(open := false), j, k);
    }
  }

  /** A publish asks the hub to store nothing, one state or two. */
  lemma PublishReceives(w: World, f: Fortune)
    requires AllReceive(w.hub)
    ensures AllReceive(Publish(w, f).0.hub)
  {
    hide AllReceive;
    if w.memory.last.Some? {
      PublishFromReceives(w, w.memory.last.value, f);
    } else if f.healthy {
      PublishFromReceives(w, Larger(w.memory.disk, Larger(0, OrZero(Latest(w.hub)))), f);
    }
  }

  lemma PublishFromReceives(w: World, last: int, f: Fortune)
    requires AllReceive(w.hub)
    ensures AllReceive(PublishFrom(w, last, f).0.hub)
  {
    hide AllReceive, Store;
    StoreReceives(w.hub, last + 1, f.fails);
    var (hub, reply) := Broadcast.Request(w.hub, last + 1, f.first, f.fails);
    if reply.Some? && reply.value.Stale? { StoreReceives(hub, reply.value.latest + 1, f.fails2); }
  }

  /**
    Over every run each subscriber has received consecutive states of the hub, without a gap or a repeat,
    and one that is still connected has the latest.
   */
  lemma {:induction false} EveryRunDelivers(events: seq<Event>)
    ensures AllReceive(Run(START, events).hub)
  {
    hide Publish, Accept, Disconnect, AllReceive;
    if events == [] {
      NobodyReceives();
    } else {
      var n := |events| - 1;
      EveryRunDelivers(events[..n]);
      var w := Run(START, events[..n]);
      match events[n]
      case Subscribing => AcceptReceives(w.hub);
      case Leaving(i) => DisconnectReceives(w.hub, i);
      case Publishing(f) => PublishReceives(w, f);
      case _ =>
    }
  }

  lemma NobodyReceives()
    ensures AllReceive(START.hub)
  {}

  // --------------------------------------------------- a subscriber who is left undisturbed

  /** An event that neither ends the connection nor fails to send to it. */
  predicate LeavesAlone(e: Event, i: nat) {
    match e
    case Leaving(j) => j != i
    case Publishing(f) => i !in f.fails && i !in f.fails2
    case _ => true
  }

  /** Everything stored from the latest state at the time of joining on. */
  predicate HasAllSince(h: HubState, i: nat, joined: nat) {
    && i < |h.sockets| && joined <= |h.history|
    && h.sockets[i] == Socket(h.history[if joined == 0 then 0 else joined - 1..], true)
  }

  lemma StoreHasAll(h: HubState, sequence: int, fails: set<nat>, i: nat, joined: nat)
    requires HasAllSince(h, i, joined) && i !in fails
    ensures HasAllSince(Store(h, sequence, fails).0, i, joined)
  {
    var from := if joined == 0 then 0 else joined - 1;
    assert (h.history + [sequence])[from..] == h.history[from..] + [sequence];
  }

  lemma PublishHasAll(w: World, f: Fortune, i: nat, joined: nat)
    requires HasAllSince(w.hub, i, joined) && i !in f.fails && i !in f.fails2
    ensures HasAllSince(Publish(w, f).0.hub, i, joined)
  {
    hide HasAllSince, Store, Latest;
    var last := match w.memory.last case Some(n) => n case None => Larger(w.memory.disk, Larger(0, OrZero(Latest(w.hub))));
    StoreHasAll(w.hub, last + 1, f.fails, i, joined);
    var (hub, reply) := Broadcast.Request(w.hub, last + 1, f.first, f.fails);
    if reply.Some? && reply.value.Stale? { StoreHasAll(hub, reply.value.latest + 1, f.fails2, i, joined); }
  }

  /** A subscriber whose connection is left alone stays connected and receives every state from the one at joining on. */
  lemma {:induction false} UndisturbedHasAll(w: World, events: seq<Event>)
    requires forall k :: 0 <= k < |events| ==> LeavesAlone(events[k], |w.hub.sockets|)
    ensures HasAllSince(Run(w.(hub := Accept(w.hub)), events).hub, |w.hub.sockets|, |w.hub.history|)
  {
    hide Publish, HasAllSince;
    var start := w.(hub := Accept(w.hub));
    if events == [] {
      JoinHasAll(w.hub);
    } else {
      var n := |events| - 1;
      UndisturbedHasAll(w, events[..n]);
      OneEventHasAll(Run(start, events[..n]), events[n], |w.hub.sockets|, |w.hub.history|);
    }
  }

  lemma JoinHasAll(h: HubState)
    ensures HasAllSince(Accept(h), |h.sockets|, |h.history|)
  {}

  lemma OneEventHasAll(w: World, e: Event, i: nat, joined: nat)
    requires HasAllSince(w.hub, i, joined) && LeavesAlone(e, i)
    ensures HasAllSince(Broadcast.Step(w, e).hub, i, joined)
  {
    hide Publish;
    match e
    case Publishing(f) => PublishHasAll(w, f, i, joined);
    case _ =>
  }
}
