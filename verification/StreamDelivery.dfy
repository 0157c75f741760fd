/**
 * What a live connection owes its client besides the conversation's stored events: the conversation's stream-only
 * events, the panes of the project's other lanes, and the project's domain changes; over whole runs.
 */
module StreamDelivery {
  import opened Order
  import opened Events
  import opened EventServer
  import opened StreamClient
  import opened LiveDelivery

  /** Where a frame comes from: the kernel's stream, the store's other conversations, or the end of the replay. */
  datatype Feed = KernelStream | OtherConversations | Announcement

  predicate Carries(feed: Feed, f: Frame) {
    match feed
    case KernelStream => (f.EventFrame? && StreamOnly(f.event)) || f.ProjectSession?
    case OtherConversations => f.ProjectEvent?
    case Announcement => f.Replayed?
  }

  function Only(feed: Feed, frames: seq<Frame>): seq<Frame> {
    if frames == [] then []
    else Only(feed, frames[..|frames| - 1]) + if Carries(feed, frames[|frames| - 1]) then [frames[|frames| - 1]] else []
  }

  predicate OfProject(sub: Subscription, e: Event) { Truthy(sub.projectId) && e.projectId == sub.projectId.value }

  /** The frame an event is due as, if any. */
  function Due(feed: Feed, sub: Subscription, e: Event): seq<Frame> {
    match feed
    case KernelStream =>
      if e.conversationId == sub.conversationId then [EventFrame(e)]
      else if e.kind == LanePane && OfProject(sub, e) then [ProjectSession(e)]
      else []
    case OtherConversations =>
      if e.conversationId != sub.conversationId && e.domain && OfProject(sub, e) then [ProjectEvent(e)] else []
    case Announcement => []
  }

  function AllDue(feed: Feed, sub: Subscription, evs: seq<Event>): seq<Frame> {
    if evs == [] then [] else AllDue(feed, sub, evs[..|evs| - 1]) + Due(feed, sub, evs[|evs| - 1])
  }

  lemma {:induction false} OnlyAppend(feed: Feed, a: seq<Frame>, b: seq<Frame>)
    ensures Only(feed, a + b) == Only(feed, a) + Only(feed, b)
  {
    if b == [] {
      assert a + b == a;
    } else {
      var n := |b| - 1;
      assert (a + b)[..|a + b| - 1] == a + b[..n];
      OnlyAppend(feed, a, b[..n]);
    }
  }

  lemma OnlyOne(feed: Feed, f: Frame)
    ensures Only(feed, [f]) == if Carries(feed, f) then [f] else []
  {
    assert [f][..0] == [];
  }

  lemma {:induction false} AllDueAppend(feed: Feed, sub: Subscription, a: seq<Event>, b: seq<Event>)
    ensures AllDue(feed, sub, a + b) == AllDue(feed, sub, a) + AllDue(feed, sub, b)
  {
    if b == [] {
      assert a + b == a;
    } else {
      var n := |b| - 1;
      assert (a + b)[..|a + b| - 1] == a + b[..n];
      AllDueAppend(feed, sub, a, b[..n]);
    }
  }

  lemma AllDueOne(feed: Feed, sub: Subscription, e: Event)
    ensures AllDue(feed, sub, [e]) == Due(feed, sub, e)
  {
    assert [e][..0] == [];
  }

  // ---- one connection ----

  function BufferOf(feed: Feed, c: Conn): seq<Event> {
    match feed
    case KernelStream => c.streamBuffer
    case OtherConversations => c.durableBuffer
    case Announcement => []
  }

  /** The end of a replay is announced, with the server's cursor once the buffers are flushed. */
  function Announced(feed: Feed, sub: Subscription, c: Conn, slow: set<nat>): seq<Frame> {
    if feed == Announcement && c.stage == Replaying && ReplayDone(c) then [Replayed(Finish(sub, c, slow).lastSeq)]
    else []
  }

  /** What is on its way to the client, and what is buffered for it. */
  function Held(feed: Feed, sub: Subscription, c: Conn): seq<Frame> {
    Only(feed, c.flight) + if Buffering(c) then AllDue(feed, sub, BufferOf(feed, c)) else []
  }

  /** Stored events on one side, stream-only events on the other; nothing before a connection is accepted. */
  predicate Sorted(c: Conn) {
    && (forall i | 0 <= i < |c.durableBuffer| :: !StreamOnly(c.durableBuffer[i]))
    && (forall i | 0 <= i < |c.backlog| :: !StreamOnly(c.backlog[i]))
    && (forall i | 0 <= i < |c.streamBuffer| :: StreamOnly(c.streamBuffer[i]))
    && (c.stage == Aborted ==> c.terminated)
    && (c.stage == Dialed ==> c.durableBuffer == [] && c.streamBuffer == [])
  }

  /** From one moment of a connection to a later one `more` was sent of a feed, unless the connection was cut off. */
  predicate Sends(feed: Feed, c: Conn, next: Conn, more: seq<Frame>) {
    && (c.terminated ==> next.terminated)
    && (!next.terminated ==> Only(feed, next.flight) == Only(feed, c.flight) + more)
  }

  /** Nothing but the flight, the cursor and the cut differs. */
  predicate SameWork(c: Conn, next: Conn) {
    next == c.(lastSeq := next.lastSeq, flight := next.flight, terminated := next.terminated)
  }

  lemma {:induction false} SendsOne(feed: Feed, c: Conn, f: Frame, slow: bool)
    ensures Sends(feed, c, Send(c, f, slow), if Carries(feed, f) then [f] else []) && SameWork(c, Send(c, f, slow))
  {
    OnlyAppend(feed, c.flight, [f]);
    OnlyOne(feed, f);
  }

  lemma {:induction false} SendsNothing(feed: Feed, c: Conn)
    ensures Sends(feed, c, c, [])
  {
  }

  lemma {:induction false} SendsThen(
    feed: Feed, a: Conn, b: Conn, c: Conn, first: seq<Frame>, second: seq<Frame>)
    requires Sends(feed, a, b, first) && Sends(feed, b, c, second)
    ensures Sends(feed, a, c, first + second)
  {
    if !c.terminated {
      assert Only(feed, a.flight) + (first + second) == (Only(feed, a.flight) + first) + second;
    }
  }

  function DueFrom(feed: Feed, source: Feed, sub: Subscription, evs: seq<Event>): seq<Frame> {
    if feed == source then AllDue(feed, sub, evs) else []
  }

  /** Forwarding a stored event sends what is due of it for the other conversations, and nothing for the stream. */
  lemma {:induction false} DurableSends(feed: Feed, sub: Subscription, c: Conn, e: Event, slow: bool)
    requires !StreamOnly(e)
    ensures var next := ForwardDurable(sub, c, e, slow);
      SameWork(c, next) && Sends(feed, c, next, DueFrom(feed, OtherConversations, sub, [e]))
  {
    AllDueOne(feed, sub, e);
    if e.conversationId == sub.conversationId && e.number > c.lastSeq {
      SendsOne(feed, c.(lastSeq := e.number), EventFrame(e), slow);
    } else if OfProject(sub, e) && e.conversationId != sub.conversationId && e.domain {
      SendsOne(feed, c, ProjectEvent(e), slow);
    } else {
      SendsNothing(feed, c);
    }
  }

  lemma {:induction false} StreamSends(feed: Feed, sub: Subscription, c: Conn, e: Event, slow: bool)
    requires StreamOnly(e)
    ensures var next := ForwardStream(sub, c, e, slow);
      SameWork(c, next) && Sends(feed, c, next, DueFrom(feed, KernelStream, sub, [e]))
  {
    AllDueOne(feed, sub, e);
    if e.conversationId == sub.conversationId {
      SendsOne(feed, c, EventFrame(e), slow);
    } else if OfProject(sub, e) && e.kind == LanePane {
      SendsOne(feed, c, ProjectSession(e), slow);
    } else {
      SendsNothing(feed, c);
    }
  }

  lemma {:induction false} DueFromCons(feed: Feed, source: Feed, sub: Subscription, evs: seq<Event>)
    requires evs != []
    ensures DueFrom(feed, source, sub, evs) ==
      DueFrom(feed, source, sub, [evs[0]]) + DueFrom(feed, source, sub, evs[1..])
  {
    assert evs == [evs[0]] + evs[1..];
    AllDueAppend(feed, sub, [evs[0]], evs[1..]);
  }

  lemma {:induction false} DurablesSend(
    feed: Feed, sub: Subscription, c: Conn, evs: seq<Event>, slow: set<nat>, at: nat)
    requires forall i | 0 <= i < |evs| :: !StreamOnly(evs[i])
    ensures var done := ForwardDurables(sub, c, evs, slow, at);
      SameWork(c, done) && Sends(feed, c, done, DueFrom(feed, OtherConversations, sub, evs))
    decreases |evs|
  {
    if evs == [] {
      SendsNothing(feed, c);
    } else {
      var next := ForwardDurable(sub, c, evs[0], at in slow);
      var done := ForwardDurables(sub, next, evs[1..], slow, at + 1);
      DurableSends(feed, sub, c, evs[0], at in slow);
      DurablesSend(feed, sub, next, evs[1..], slow, at + 1);
      DueFromCons(feed, OtherConversations, sub, evs);
      SendsThen(feed, c, next, done, DueFrom(feed, OtherConversations, sub, [evs[0]]),
        DueFrom(feed, OtherConversations, sub, evs[1..]));
    }
  }

  lemma {:induction false} StreamsSend(
    feed: Feed, sub: Subscription, c: Conn, evs: seq<Event>, slow: set<nat>, at: nat)
    requires forall i | 0 <= i < |evs| :: StreamOnly(evs[i])
    ensures var done := ForwardStreams(sub, c, evs, slow, at);
      SameWork(c, done) && Sends(feed, c, done, DueFrom(feed, KernelStream, sub, evs))
    decreases |evs|
  {
    if evs == [] {
      SendsNothing(feed, c);
    } else {
      var next := ForwardStream(sub, c, evs[0], at in slow);
      var done := ForwardStreams(sub, next, evs[1..], slow, at + 1);
      StreamSends(feed, sub, c, evs[0], at in slow);
      StreamsSend(feed, sub, next, evs[1..], slow, at + 1);
      DueFromCons(feed, KernelStream, sub, evs);
      SendsThen(feed, c, next, done, DueFrom(feed, KernelStream, sub, [evs[0]]),
        DueFrom(feed, KernelStream, sub, evs[1..]));
    }
  }

  /** A later moment of a connection at which `more` is held besides, unless it was cut off. */
  predicate Holds(feed: Feed, sub: Subscription, c: Conn, next: Conn, more: seq<Frame>) {
    && Sorted(next) && (c.terminated ==> next.terminated)
    && (!next.terminated ==> Held(feed, sub, next) == Held(feed, sub, c) + more)
  }

  lemma {:induction false} SameHolds(feed: Feed, sub: Subscription, c: Conn)
    requires Sorted(c)
    ensures Holds(feed, sub, c, c, [])
  {
  }

  /** While live, what is held is what is in flight; so is what is held more. */
  lemma {:induction false} LiveHolds(feed: Feed, sub: Subscription, c: Conn, next: Conn, more: seq<Frame>)
    requires Sorted(c) && Sorted(next) && c.stage == Live && next.stage == Live && Sends(feed, c, next, more)
    ensures Holds(feed, sub, c, next, more)
  {
  }

  /** Going live turns what was buffered into what is in flight. */
  lemma {:induction false} FlushHolds(feed: Feed, sub: Subscription, c: Conn, live: Conn, next: Conn, more: seq<Frame>)
    requires Buffering(c) && next.stage == Live && Sorted(next)
    requires live.flight == c.flight && live.terminated == c.terminated
    requires Sends(feed, live, next, AllDue(feed, sub, BufferOf(feed, c)) + more)
    ensures Holds(feed, sub, c, next, more)
  {
    assert (Only(feed, c.flight) + AllDue(feed, sub, BufferOf(feed, c))) + more
      == Only(feed, c.flight) + (AllDue(feed, sub, BufferOf(feed, c)) + more);
  }

  lemma {:induction false} FinishHolds(feed: Feed, sub: Subscription, c: Conn, slow: set<nat>)
    requires Sorted(c)
    ensures Holds(feed, sub, c, Finish(sub, c, slow), Announced(feed, sub, c, slow))
  {
    if c.stage == Replaying && ReplayDone(c) {
      var live := c.(stage := Live, durableBuffer := [], streamBuffer := []);
      var flushed := ForwardDurables(sub, live, c.durableBuffer, slow, 0);
      var streamed := ForwardStreams(sub, flushed, c.streamBuffer, slow, |c.durableBuffer|);
      var last := |c.durableBuffer| + |c.streamBuffer| in slow;
      var done := Send(streamed, Replayed(streamed.lastSeq), last);
      var durables := DueFrom(feed, OtherConversations, sub, c.durableBuffer);
      var streams := DueFrom(feed, KernelStream, sub, c.streamBuffer);
      DurablesSend(feed, sub, live, c.durableBuffer, slow, 0);
      StreamsSend(feed, sub, flushed, c.streamBuffer, slow, |c.durableBuffer|);
      SendsThen(feed, live, flushed, streamed, durables, streams);
      SendsOne(feed, streamed, Replayed(streamed.lastSeq), last);
      var mark := Announced(feed, sub, c, slow);
      SendsThen(feed, live, streamed, done, durables + streams, mark);
      assert Finish(sub, c, slow) == done;
      assert durables + streams == AllDue(feed, sub, BufferOf(feed, c));
      FlushHolds(feed, sub, c, live, done, mark);
    } else {
      SameHolds(feed, sub, c);
    }
  }

  lemma {:induction false} ReplayHolds(feed: Feed, sub: Subscription, c: Conn, slow: bool)
    requires Sorted(c)
    ensures Holds(feed, sub, c, ReplayOne(c, slow), [])
  {
    if c.stage == Replaying && !ReplayDone(c) {
      SendsOne(feed, c, EventFrame(c.backlog[0]), slow);
    } else {
      SameHolds(feed, sub, c);
    }
  }

  lemma {:induction false} AcceptHolds(feed: Feed, sub: Subscription, c: Conn)
    requires Sorted(c)
    ensures Holds(feed, sub, c, Accept(c), [])
  {
  }

  lemma {:induction false} SnapshotHolds(feed: Feed, sub: Subscription, c: Conn, log: seq<Event>)
    requires Sorted(c) && Numbered(log, sub.conversationId)
    ensures Holds(feed, sub, c, Snapshot(c, log), [])
  {
    SameHolds(feed, sub, c);
  }

  lemma {:induction false} CleanupHolds(feed: Feed, sub: Subscription, c: Conn)
    requires Sorted(c)
    ensures Holds(feed, sub, c, Cleanup(c), [])
  {
  }

  /** A buffer takes one event more. */
  lemma {:induction false} BufferHolds(feed: Feed, source: Feed, sub: Subscription, c: Conn, next: Conn, e: Event)
    requires Buffering(c) && next.stage == c.stage && next.flight == c.flight && next.terminated == c.terminated
    requires Sorted(next)
    requires BufferOf(source, next) == BufferOf(source, c) + [e]
    requires feed != source ==> BufferOf(feed, next) == BufferOf(feed, c)
    ensures Holds(feed, sub, c, next, DueFrom(feed, source, sub, [e]))
  {
    var flight, buffer := Only(feed, c.flight), BufferOf(feed, c);
    if feed == source {
      AllDueAppend(feed, sub, buffer, [e]);
      assert flight + (AllDue(feed, sub, buffer) + AllDue(feed, sub, [e]))
        == (flight + AllDue(feed, sub, buffer)) + AllDue(feed, sub, [e]);
    }
  }

  /** Fan-out of one event: what is due of it is held from then on, buffered or sent. */
  lemma {:induction false} AppendedHolds(feed: Feed, sub: Subscription, c: Conn, e: Event, slow: bool)
    requires Sorted(c) && !StreamOnly(e)
    ensures Holds(feed, sub, c, OnAppended(sub, c, e, slow),
      if Accepting(c) then DueFrom(feed, OtherConversations, sub, [e]) else [])
  {
    var next := OnAppended(sub, c, e, slow);
    if c.stage == Live {
      DurableSends(feed, sub, c, e, slow);
      LiveHolds(feed, sub, c, next, DueFrom(feed, OtherConversations, sub, [e]));
    } else if Buffering(c) {
      BufferHolds(feed, OtherConversations, sub, c, next, e);
    } else {
      SameHolds(feed, sub, c);
    }
  }

  lemma {:induction false} StreamedHolds(feed: Feed, sub: Subscription, c: Conn, e: Event, slow: bool)
    requires Sorted(c) && StreamOnly(e)
    ensures Holds(feed, sub, c, OnStreamed(sub, c, e, slow),
      if Accepting(c) then DueFrom(feed, KernelStream, sub, [e]) else [])
  {
    var next := OnStreamed(sub, c, e, slow);
    if c.stage == Live {
      StreamSends(feed, sub, c, e, slow);
      LiveHolds(feed, sub, c, next, DueFrom(feed, KernelStream, sub, [e]));
    } else if Buffering(c) {
      BufferHolds(feed, KernelStream, sub, c, next, e);
    } else {
      SameHolds(feed, sub, c);
    }
  }

  predicate Accepting(c: Conn) { Buffering(c) || c.stage == Live }

  // ---- over a run ----

  /** What an action makes due on socket `s`, if it is accepted by then. */
  function Offered(feed: Feed, sub: Subscription, w: World, a: Action, s: nat): seq<Frame> {
    if s !in w.conns || !Accepting(w.conns[s]) then []
    else
      match a
      case Append(e, _) =>
        if feed == OtherConversations && FreshId(w, e) && !StreamOnly(e) then Due(feed, sub, Seal(w.log, e)) else []
      case Emit(e, _) =>
        if feed == KernelStream && FreshId(w, e) && StreamOnly(e) && e.number == 0 then Due(feed, sub, e) else []
      case Flush(t, slow) => if t == s then Announced(feed, sub, w.conns[s], slow) else []
      case _ => []
  }

  function AllOffered(feed: Feed, cfg: Config, sub: Subscription, w: World, actions: seq<Action>, s: nat): seq<Frame>
    decreases |actions|
  {
    if actions == [] then []
    else
      Offered(feed, sub, w, actions[0], s)
      + AllOffered(feed, cfg, sub, Act(cfg, sub, w, actions[0]), actions[1..], s)
  }

  /** The frame an action brings from socket `s` to the client. */
  function Arriving(w: World, a: Action, s: nat): seq<Frame> {
    if a == Deliver(s) && s in w.conns && w.conns[s].flight != [] then [w.conns[s].flight[0]] else []
  }

  function Arrived(cfg: Config, sub: Subscription, w: World, actions: seq<Action>, s: nat): seq<Frame>
    decreases |actions|
  {
    if actions == [] then []
    else Arriving(w, actions[0], s) + Arrived(cfg, sub, Act(cfg, sub, w, actions[0]), actions[1..], s)
  }

  predicate Known(w: World, s: nat) { s in w.conns && s < w.client.socketsMade && Sorted(w.conns[s]) }

  /** One action at one connection: what was held or became due has arrived or is held, unless it is cut off. */
  predicate Balances(feed: Feed, sub: Subscription, w: World, a: Action, next: World, s: nat)
    requires s in w.conns && s in next.conns
  {
    && (w.conns[s].terminated ==> next.conns[s].terminated)
    && (!next.conns[s].terminated ==>
          Held(feed, sub, w.conns[s]) + Offered(feed, sub, w, a, s)
          == Only(feed, Arriving(w, a, s)) + Held(feed, sub, next.conns[s]))
  }

  /** An action that brings nothing: what becomes due is held. */
  lemma {:induction false} HoldsBalances(feed: Feed, sub: Subscription, w: World, a: Action, next: World, s: nat)
    requires s in w.conns && s in next.conns && Arriving(w, a, s) == []
    requires Holds(feed, sub, w.conns[s], next.conns[s], Offered(feed, sub, w, a, s))
    ensures Balances(feed, sub, w, a, next, s)
  {
    assert Only(feed, []) == [];
  }

  lemma {:induction false} QuietBalances(feed: Feed, sub: Subscription, w: World, a: Action, next: World, s: nat)
    requires Known(w, s) && s in next.conns && next.conns[s] == w.conns[s]
    requires Offered(feed, sub, w, a, s) == [] && Arriving(w, a, s) == []
    ensures Balances(feed, sub, w, a, next, s)
  {
    SameHolds(feed, sub, w.conns[s]);
    HoldsBalances(feed, sub, w, a, next, s);
  }

  lemma {:induction false} DeliverBalances(feed: Feed, cfg: Config, sub: Subscription, w: World, t: nat, s: nat)
    requires Known(w, s)
    ensures var next := Act(cfg, sub, w, Deliver(t)); Known(next, s) && Balances(feed, sub, w, Deliver(t), next, s)
  {
    var c, next := w.conns[s], Act(cfg, sub, w, Deliver(t));
    if t == s && c.flight != [] {
      var f, rest := c.flight[0], c.flight[1..];
      assert c.flight == [f] + rest;
      OnlyAppend(feed, [f], rest);
      assert next.conns[s] == c.(flight := rest) && Arriving(w, Deliver(t), s) == [f];
      PopBalances(feed, sub, c, next.conns[s], f);
    } else {
      QuietBalances(feed, sub, w, Deliver(t), next, s);
    }
  }

  lemma {:induction false} PopBalances(feed: Feed, sub: Subscription, c: Conn, next: Conn, f: Frame)
    requires next == c.(flight := next.flight) && Only(feed, c.flight) == Only(feed, [f]) + Only(feed, next.flight)
    ensures Held(feed, sub, c) + [] == Only(feed, [f]) + Held(feed, sub, next)
  {
  }

  lemma {:induction false} InputBalances(feed: Feed, cfg: Config, sub: Subscription, w: World, input: Input, s: nat)
    requires Known(w, s) && OneDriver(cfg, w.client)
    ensures var next := Act(cfg, sub, w, ClientInput(input));
      Known(next, s) && Balances(feed, sub, w, ClientInput(input), next, s)
  {
    var next := Act(cfg, sub, w, ClientInput(input));
    if !input.Message? {
      InputShape(cfg, w.client, input);
    }
    QuietBalances(feed, sub, w, ClientInput(input), next, s);
  }

  lemma {:induction false} AppendBalances(
    feed: Feed, cfg: Config, sub: Subscription, w: World, e: Event, slow: set<nat>, s: nat)
    requires Known(w, s)
    ensures var next := Act(cfg, sub, w, Append(e, slow));
      Known(next, s) && Balances(feed, sub, w, Append(e, slow), next, s)
  {
    var a, next, sealed := Append(e, slow), Act(cfg, sub, w, Append(e, slow)), Seal(w.log, e);
    if FreshId(w, e) && !StreamOnly(e) {
      AppendedHolds(feed, sub, w.conns[s], sealed, s in slow);
      AllDueOne(feed, sub, sealed);
      HoldsBalances(feed, sub, w, a, next, s);
    } else {
      QuietBalances(feed, sub, w, a, next, s);
    }
  }

  lemma {:induction false} EmitBalances(
    feed: Feed, cfg: Config, sub: Subscription, w: World, e: Event, slow: set<nat>, s: nat)
    requires Known(w, s)
    ensures var next := Act(cfg, sub, w, Emit(e, slow));
      Known(next, s) && Balances(feed, sub, w, Emit(e, slow), next, s)
  {
    var a, next := Emit(e, slow), Act(cfg, sub, w, Emit(e, slow));
    if FreshId(w, e) && StreamOnly(e) && e.number == 0 {
      StreamedHolds(feed, sub, w.conns[s], e, s in slow);
      AllDueOne(feed, sub, e);
      HoldsBalances(feed, sub, w, a, next, s);
    } else {
      QuietBalances(feed, sub, w, a, next, s);
    }
  }

  lemma {:induction false} WorkBalances(feed: Feed, cfg: Config, sub: Subscription, w: World, a: Action, s: nat)
    requires Known(w, s) && LogOk(w, sub) && (a.Accepted? || a.ReadBacklog? || a.Replay? || a.Flush? || a.Vanish?)
    ensures var next := Act(cfg, sub, w, a); Known(next, s) && Balances(feed, sub, w, a, next, s)
  {
    var c, next := w.conns[s], Act(cfg, sub, w, a);
    if a.socket == s {
      match a {
        case Accepted(_) => AcceptHolds(feed, sub, c);
        case ReadBacklog(_) => SnapshotHolds(feed, sub, c, Log(w, sub));
        case Replay(_, slow) => ReplayHolds(feed, sub, c, slow);
        case Flush(_, slow) => FinishHolds(feed, sub, c, slow);
        case Vanish(_) => CleanupHolds(feed, sub, c);
      }
      HoldsBalances(feed, sub, w, a, next, s);
    } else {
      QuietBalances(feed, sub, w, a, next, s);
    }
  }

  lemma {:induction false} ActBalances(feed: Feed, cfg: Config, sub: Subscription, w: World, a: Action, s: nat)
    requires Inv(cfg, sub, w) && Known(w, s)
    ensures var next := Act(cfg, sub, w, a); Known(next, s) && Balances(feed, sub, w, a, next, s)
  {
    match a
    case Append(e, slow) => AppendBalances(feed, cfg, sub, w, e, slow, s);
    case Emit(e, slow) => EmitBalances(feed, cfg, sub, w, e, slow, s);
    case Deliver(t) => DeliverBalances(feed, cfg, sub, w, t, s);
    case ClientInput(input) => InputBalances(feed, cfg, sub, w, input, s);
    case HttpAsk => QuietBalances(feed, sub, w, a, Act(cfg, sub, w, a), s);
    case HttpReply(_) => QuietBalances(feed, sub, w, a, Act(cfg, sub, w, a), s);
    case _ => WorkBalances(feed, cfg, sub, w, a, s);
  }

  /**
   * Over every run, of every connection that has not been cut off: what became due of a feed since the connection
   * was accepted, after what was held at the beginning, is exactly what has arrived and what is still held, each
   * frame once and in order.
   */
  lemma {:induction false} FeedIsConserved(
    feed: Feed, cfg: Config, sub: Subscription, w: World, actions: seq<Action>, s: nat)
    requires Inv(cfg, sub, w) && Known(w, s)
    ensures var final := LiveDelivery.Run(cfg, sub, w, actions);
      && Known(final, s) && (w.conns[s].terminated ==> final.conns[s].terminated)
      && (!final.conns[s].terminated ==>
            Held(feed, sub, w.conns[s]) + AllOffered(feed, cfg, sub, w, actions, s)
            == Only(feed, Arrived(cfg, sub, w, actions, s)) + Held(feed, sub, final.conns[s]))
    decreases |actions|
  {
    if actions != [] {
      var a, rest := actions[0], actions[1..];
      var next := Act(cfg, sub, w, a);
      ActKeeps(cfg, sub, w, a);
      ActBalances(feed, cfg, sub, w, a, s);
      FeedIsConserved(feed, cfg, sub, next, rest, s);
      OnlyAppend(feed, Arriving(w, a, s), Arrived(cfg, sub, next, rest, s));
      var final := LiveDelivery.Run(cfg, sub, w, actions);
      if !final.conns[s].terminated {
        Regroup(Held(feed, sub, w.conns[s]), Offered(feed, sub, w, a, s), AllOffered(feed, cfg, sub, next, rest, s),
          Only(feed, Arriving(w, a, s)), Held(feed, sub, next.conns[s]),
          Only(feed, Arrived(cfg, sub, next, rest, s)), Held(feed, sub, final.conns[s]));
      }
    }
  }

  // ---- the end of the replay ----

  lemma {:induction false} FlushGoesLive(sub: Subscription, c: Conn, slow: set<nat>)
    requires Sorted(c)
    ensures Finish(sub, c, slow).stage == if c.stage == Replaying && ReplayDone(c) then Live else c.stage
  {
    if c.stage == Replaying && ReplayDone(c) {
      var live := c.(stage := Live, durableBuffer := [], streamBuffer := []);
      var flushed := ForwardDurables(sub, live, c.durableBuffer, slow, 0);
      DurablesSend(Announcement, sub, live, c.durableBuffer, slow, 0);
      StreamsSend(Announcement, sub, flushed, c.streamBuffer, slow, |c.durableBuffer|);
    }
  }

  predicate NoneOf(feed: Feed, frames: seq<Frame>) { forall f | f in frames :: !Carries(feed, f) }

  predicate AllOf(feed: Feed, frames: seq<Frame>) { forall f | f in frames :: Carries(feed, f) }

  lemma {:induction false} DurablesInOrder(
    sub: Subscription, c: Conn, evs: seq<Event>, slow: set<nat>, at: nat) returns (sent: seq<Frame>)
    requires forall i | 0 <= i < |evs| :: !StreamOnly(evs[i])
    ensures var done := ForwardDurables(sub, c, evs, slow, at);
      (c.terminated ==> done.terminated) && (!done.terminated ==> done.flight == c.flight + sent)
    ensures NoneOf(KernelStream, sent) && NoneOf(Announcement, sent)
    decreases |evs|
  {
    sent := [];
    if evs != [] {
      var next := ForwardDurable(sub, c, evs[0], at in slow);
      var rest := DurablesInOrder(sub, next, evs[1..], slow, at + 1);
      var first := if |next.flight| > |c.flight| then [next.flight[|c.flight|]] else [];
      sent := first + rest;
      assert next.terminated || next.flight == c.flight + first;
      assert c.flight + first + rest == c.flight + sent;
    }
  }

  lemma {:induction false} StreamsInOrder(
    sub: Subscription, c: Conn, evs: seq<Event>, slow: set<nat>, at: nat) returns (sent: seq<Frame>)
    requires forall i | 0 <= i < |evs| :: StreamOnly(evs[i])
    ensures var done := ForwardStreams(sub, c, evs, slow, at);
      (c.terminated ==> done.terminated) && (!done.terminated ==> done.flight == c.flight + sent)
    ensures AllOf(KernelStream, sent)
    decreases |evs|
  {
    sent := [];
    if evs != [] {
      var next := ForwardStream(sub, c, evs[0], at in slow);
      var rest := StreamsInOrder(sub, next, evs[1..], slow, at + 1);
      var first := if |next.flight| > |c.flight| then [next.flight[|c.flight|]] else [];
      sent := first + rest;
      assert next.terminated || next.flight == c.flight + first;
      assert c.flight + first + rest == c.flight + sent;
    }
  }

  /** A flush sends what was stored before what was only streamed, and says that the replay is over last of all. */
  lemma {:induction false} FlushInOrder(sub: Subscription, c: Conn, slow: set<nat>)
    returns (stored: seq<Frame>, streamed: seq<Frame>)
    requires Sorted(c) && c.stage == Replaying && ReplayDone(c)
    ensures NoneOf(KernelStream, stored) && NoneOf(Announcement, stored) && AllOf(KernelStream, streamed)
    ensures var done := Finish(sub, c, slow);
      !done.terminated ==> done.flight == c.flight + stored + streamed + [Replayed(done.lastSeq)]
  {
    var live := c.(stage := Live, durableBuffer := [], streamBuffer := []);
    var flushed := ForwardDurables(sub, live, c.durableBuffer, slow, 0);
    stored := DurablesInOrder(sub, live, c.durableBuffer, slow, 0);
    streamed := StreamsInOrder(sub, flushed, c.streamBuffer, slow, |c.durableBuffer|);
  }

  function LiveNow(c: Conn): int { if c.stage == Live then 1 else 0 }

  lemma {:induction false} AnnouncedByStep(cfg: Config, sub: Subscription, w: World, a: Action, s: nat)
    requires OneDriver(cfg, w.client) && Known(w, s)
    ensures var next := Act(cfg, sub, w, a);
      && s in next.conns
      && (!next.conns[s].terminated ==>
            |Offered(Announcement, sub, w, a, s)| == LiveNow(next.conns[s]) - LiveNow(w.conns[s]))
  {
    if a.Flush? {
      FlushGoesLive(sub, w.conns[s], a.slow);
    } else {
      StageStays(cfg, sub, w, a, s);
      assert Offered(Announcement, sub, w, a, s) == [];
    }
  }

  /** Only a flush makes a connection live, and only a cut ends that. */
  lemma {:induction false} StageStays(cfg: Config, sub: Subscription, w: World, a: Action, s: nat)
    requires OneDriver(cfg, w.client) && Known(w, s) && !a.Flush?
    ensures var next := Act(cfg, sub, w, a);
      && s in next.conns
      && (!next.conns[s].terminated ==> LiveNow(next.conns[s]) == LiveNow(w.conns[s]))
  {
    match a
    case ClientInput(input) => InputBalances(Announcement, cfg, sub, w, input, s);
    case Append(e, slow) => FanOutKeepsStage(sub, w.conns[s], Seal(w.log, e), s in slow);
    case Emit(e, slow) => FanOutKeepsStage(sub, w.conns[s], e, s in slow);
    case _ =>
  }

  lemma {:induction false} FanOutKeepsStage(sub: Subscription, c: Conn, e: Event, slow: bool)
    ensures OnAppended(sub, c, e, slow).stage == c.stage && OnStreamed(sub, c, e, slow).stage == c.stage
  {
  }

  lemma {:induction false} AnnouncedByRun(cfg: Config, sub: Subscription, w: World, actions: seq<Action>, s: nat)
    requires Inv(cfg, sub, w) && Known(w, s)
    ensures var final := LiveDelivery.Run(cfg, sub, w, actions);
      && s in final.conns
      && (!final.conns[s].terminated ==>
            |AllOffered(Announcement, cfg, sub, w, actions, s)| == LiveNow(final.conns[s]) - LiveNow(w.conns[s]))
    decreases |actions|
  {
    if actions != [] {
      var next := Act(cfg, sub, w, actions[0]);
      ActKeeps(cfg, sub, w, actions[0]);
      ActBalances(Announcement, cfg, sub, w, actions[0], s);
      AnnouncedByStep(cfg, sub, w, actions[0], s);
      FeedIsConserved(Announcement, cfg, sub, next, actions[1..], s);
      AnnouncedByRun(cfg, sub, next, actions[1..], s);
    }
  }

  lemma Regroup(held: seq<Frame>, offered: seq<Frame>, more: seq<Frame>,
                arriving: seq<Frame>, next: seq<Frame>, arrived: seq<Frame>, last: seq<Frame>)
    requires held + offered == arriving + next && next + more == arrived + last
    ensures held + (offered + more) == (arriving + arrived) + last
  {
    assert held + (offered + more) == (held + offered) + more;
    assert arriving + (next + more) == (arriving + next) + more;
    assert arriving + (arrived + last) == (arriving + arrived) + last;
  }

  // ---- the client's handlers ----

  /** The call a frame of the current socket ends in, if any. */
  function CallsFor(frames: seq<Frame>): seq<Call> {
    if frames == [] then []
    else
      var f := frames[|frames| - 1];
      CallsFor(frames[..|frames| - 1]) +
      match f
      case EventFrame(e) => [OnEvent(e)]
      case ProjectEvent(e) => [OnProjectEvent(e)]
      case ProjectSession(e) => if e.kind == LanePane then [OnProjectSessionEvent(e)] else []
      case Replayed(n) => [OnReplayed(n)]
  }

  /** All the handlers were told but changes of state. */
  function Told(calls: seq<Call>): seq<Call> {
    if calls == [] then []
    else Told(calls[..|calls| - 1]) + if calls[|calls| - 1].OnState? then [] else [calls[|calls| - 1]]
  }

  lemma ToldSnoc(calls: seq<Call>, call: Call)
    ensures Told(calls + [call]) == Told(calls) + if call.OnState? then [] else [call]
  {
    assert (calls + [call])[..|calls|] == calls;
  }

  lemma {:induction false} CallsForAppend(a: seq<Frame>, b: seq<Frame>)
    ensures CallsFor(a + b) == CallsFor(a) + CallsFor(b)
  {
    if b == [] {
      assert a + b == a;
    } else {
      var n := |b| - 1;
      assert (a + b)[..|a + b| - 1] == a + b[..n];
      CallsForAppend(a, b[..n]);
    }
  }

  lemma CallsForOne(f: Frame)
    ensures CallsFor([f]) ==
      match f
      case EventFrame(e) => [OnEvent(e)]
      case ProjectEvent(e) => [OnProjectEvent(e)]
      case ProjectSession(e) => if e.kind == LanePane then [OnProjectSessionEvent(e)] else []
      case Replayed(n) => [OnReplayed(n)]
  {
    assert [f][..0] == [];
  }

  lemma {:induction false} ReceiveTellsFrame(c: Client, s: nat, f: Frame)
    requires Listens(c, s)
    ensures Told(Receive(c, s, f).calls) == Told(c.calls) + CallsFor([f])
  {
    var more := CallsFor([f]);
    CallsForOne(f);
    assert Receive(c, s, f).calls == c.calls + more;
    if more == [] {
      assert c.calls + more == c.calls;
    } else {
      assert more == [more[0]];
      ToldSnoc(c.calls, more[0]);
    }
  }

  lemma {:induction false} SetStateTellsNoMore(c: Client, s: StreamState)
    ensures Told(SetState(c, s).calls) == Told(c.calls)
  {
    ToldSnoc(c.calls, OnState(s));
  }

  lemma {:induction false} InputTellsNoMore(cfg: Config, c: Client, input: Input)
    requires !input.Message?
    ensures Told(Step(cfg, c, input).calls) == Told(c.calls)
  {
    match input
    case Opened(_) => SetStateTellsNoMore(c.(retries := 0), Open);
    case Dropped(_) => ScheduleTellsNoMore(cfg, c.(ws := None));
    case Fired(timer, made) => ConnectTellsNoMore(cfg, c.(armed := c.armed - {timer}), made);
    case Revived(made) => ConnectTellsNoMore(cfg, ClearTimer(c).(retries := 0, timer := None), made);
    case UserClosed => SetStateTellsNoMore(ClearTimer(c.(closed := true)).(ws := None), Closed);
  }

  lemma {:induction false} ScheduleTellsNoMore(cfg: Config, c: Client)
    ensures Told(ScheduleReconnect(cfg, c).calls) == Told(c.calls)
  {
    SetStateTellsNoMore(c, GaveUp);
    SetStateTellsNoMore(c.(retries := c.retries + 1), Reconnecting);
  }

  lemma {:induction false} ConnectTellsNoMore(cfg: Config, c: Client, made: bool)
    ensures Told(Connect(cfg, c, made).calls) == Told(c.calls)
  {
    ScheduleTellsNoMore(cfg, c);
    SetStateTellsNoMore(c.(ws := Some(c.socketsMade), socketsMade := c.socketsMade + 1), Connecting);
  }

  lemma {:induction false} ActTells(cfg: Config, sub: Subscription, w: World, a: Action, s: nat)
    requires OneDriver(cfg, w.client) && w.client.ws == Some(s)
    ensures Told(Act(cfg, sub, w, a).client.calls) == Told(w.client.calls) + CallsFor(Arriving(w, a, s))
  {
    match a
    case Deliver(t) =>
      if t == s && s in w.conns && w.conns[s].flight != [] {
        ReceiveTellsFrame(w.client, s, w.conns[s].flight[0]);
      }
    case ClientInput(input) =>
      if !input.Message? {
        InputTellsNoMore(cfg, w.client, input);
      }
    case _ => assert Act(cfg, sub, w, a).client == w.client;
  }

  /** A socket that has been superseded or lost never comes back. */
  lemma {:induction false} NeverBack(cfg: Config, sub: Subscription, w: World, actions: seq<Action>, s: nat)
    requires Inv(cfg, sub, w) && s < w.client.socketsMade && w.client.ws != Some(s)
    ensures LiveDelivery.Run(cfg, sub, w, actions).client.ws != Some(s)
    decreases |actions|
  {
    if actions != [] {
      ActKeeps(cfg, sub, w, actions[0]);
      SocketsAgree(cfg, sub, w, actions[0]);
      NeverBack(cfg, sub, Act(cfg, sub, w, actions[0]), actions[1..], s);
    }
  }

  lemma {:induction false} SocketsAgree(cfg: Config, sub: Subscription, w: World, a: Action)
    requires OneDriver(cfg, w.client)
    ensures var c, next := w.client, Act(cfg, sub, w, a).client;
      && c.socketsMade <= next.socketsMade
      && (next.ws == c.ws || next.ws == None || next.ws == Some(c.socketsMade))
  {
    match a
    case Deliver(t) =>
    case ClientInput(input) =>
      if !input.Message? {
        InputShape(cfg, w.client, input);
      }
    case _ => assert Act(cfg, sub, w, a).client == w.client;
  }

  lemma {:induction false} StillCurrent(cfg: Config, sub: Subscription, w: World, actions: seq<Action>, s: nat)
    requires Inv(cfg, sub, w) && w.client.ws == Some(s) && actions != []
    requires LiveDelivery.Run(cfg, sub, w, actions).client.ws == Some(s)
    ensures Act(cfg, sub, w, actions[0]).client.ws == Some(s)
  {
    var next := Act(cfg, sub, w, actions[0]);
    ActKeeps(cfg, sub, w, actions[0]);
    SocketsAgree(cfg, sub, w, actions[0]);
    if next.client.ws != Some(s) {
      NeverBack(cfg, sub, next, actions[1..], s);
    }
  }

  /** While a socket stays current, the handlers are told exactly the frames it brings, in order. */
  lemma {:induction false} HandlersAreToldExactly(
    cfg: Config, sub: Subscription, w: World, actions: seq<Action>, s: nat)
    requires Inv(cfg, sub, w) && w.client.ws == Some(s)
    requires LiveDelivery.Run(cfg, sub, w, actions).client.ws == Some(s)
    ensures Told(LiveDelivery.Run(cfg, sub, w, actions).client.calls) ==
      Told(w.client.calls) + CallsFor(Arrived(cfg, sub, w, actions, s))
    decreases |actions|
  {
    if actions != [] {
      var a, rest := actions[0], actions[1..];
      var next := Act(cfg, sub, w, a);
      StillCurrent(cfg, sub, w, actions, s);
      ActKeeps(cfg, sub, w, a);
      HandlersAreToldExactly(cfg, sub, next, rest, s);
      ActTells(cfg, sub, w, a, s);
      var final := LiveDelivery.Run(cfg, sub, next, rest);
      ToldThen(w.client, next.client, final.client, Arriving(w, a, s), Arrived(cfg, sub, next, rest, s));
    }
  }

  lemma {:induction false} ToldThen(a: Client, b: Client, c: Client, first: seq<Frame>, second: seq<Frame>)
    requires Told(b.calls) == Told(a.calls) + CallsFor(first) && Told(c.calls) == Told(b.calls) + CallsFor(second)
    ensures Told(c.calls) == Told(a.calls) + CallsFor(first + second)
  {
    var x, y, z := Told(a.calls), CallsFor(first), CallsFor(second);
    CallsForAppend(first, second);
    assert (x + y) + z == x + (y + z);
  }

  // ---- the results ----

  /** The client has just dialed this socket. */
  predicate JustDialed(w: World, s: nat) {
    w.client.ws == Some(s) && s in w.conns && w.conns[s] == Dial(w.client.lastSeq)
  }

  /**
   * From the moment a client dials, over every run: a connection that has not been cut off has sent, or still
   * buffers, exactly the stream-only events of its conversation and the panes of its project's other lanes emitted
   * since it was accepted, exactly the domain changes of the project's other conversations stored since then, each
   * once and in order, and one end of replay once it is live.
   */
  lemma {:induction false} ConnectionSendsExactly(
    cfg: Config, sub: Subscription, w: World, actions: seq<Action>, s: nat)
    requires Inv(cfg, sub, w) && JustDialed(w, s)
    ensures var final, arrived := LiveDelivery.Run(cfg, sub, w, actions), Arrived(cfg, sub, w, actions, s);
      && s in final.conns
      && (!final.conns[s].terminated ==>
            var c := final.conns[s];
            && (forall feed :: Only(feed, arrived) + Held(feed, sub, c) == AllOffered(feed, cfg, sub, w, actions, s))
            && |AllOffered(Announcement, cfg, sub, w, actions, s)| == if c.stage == Live then 1 else 0)
  {
    forall feed ensures Held(feed, sub, w.conns[s]) == [] {
    }
    forall feed: Feed {
      FeedIsConserved(feed, cfg, sub, w, actions, s);
    }
    AnnouncedByRun(cfg, sub, w, actions, s);
  }

  /** And if it is still current, live, and has nothing left in flight, the handlers have been told all of that. */
  lemma {:induction false} QuietHasToldAll(cfg: Config, sub: Subscription, w: World, actions: seq<Action>, s: nat)
    requires Inv(cfg, sub, w) && JustDialed(w, s)
    ensures var final, arrived := LiveDelivery.Run(cfg, sub, w, actions), Arrived(cfg, sub, w, actions, s);
      && s in final.conns
      && (var c := final.conns[s];
          final.client.ws == Some(s) && c.stage == Live && !c.terminated && c.flight == [] ==>
            && Told(final.client.calls) == Told(w.client.calls) + CallsFor(arrived)
            && forall feed :: Only(feed, arrived) == AllOffered(feed, cfg, sub, w, actions, s))
  {
    ConnectionSendsExactly(cfg, sub, w, actions, s);
    if LiveDelivery.Run(cfg, sub, w, actions).client.ws == Some(s) {
      HandlersAreToldExactly(cfg, sub, w, actions, s);
    }
  }
}
