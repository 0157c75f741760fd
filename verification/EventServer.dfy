/**
 * The server side of one live socket (packages/daemon/src/http.ts:833-925): subscribe and buffer,
 * replay from the cursor, flush what was buffered, then forward.
 */
module EventServer {
  import opened Order
  import opened Events

  const WS_MAX_REPLAY := 1000

  /** What the socket asked for: a conversation and, optionally, its project's changes. */
  datatype Subscription = Subscription(conversationId: string, projectId: Option<string>)

  /** Dialed: not accepted yet. Aborted: a send failed during replay, or the socket is gone. */
  datatype Stage = Dialed | Subscribed | Replaying | Live | Aborted

  /** `backlog` is the rest of the snapshot being replayed; `flight` what was sent, in order. */
  datatype Conn = Conn(
    stage: Stage,
    lastSeq: nat,
    backlog: seq<Event>,
    replayed: nat,
    durableBuffer: seq<Event>,
    streamBuffer: seq<Event>,
    flight: seq<Frame>,
    terminated: bool)

  function Dial(sinceSeq: nat): Conn {
    Conn(Dialed, sinceSeq, [], 0, [], [], [], false)
  }

  /** `safeSend`: a client too slow to take more is cut off; a cut-off socket carries nothing. */
  function Send(c: Conn, f: Frame, slow: bool): Conn {
    if slow then c.(terminated := true)
    else if c.terminated then c
    else c.(flight := c.flight + [f])
  }

  function ForwardDurable(sub: Subscription, c: Conn, ev: Event, slow: bool): Conn {
    if ev.conversationId == sub.conversationId && ev.number > c.lastSeq then
      Send(c.(lastSeq := ev.number), EventFrame(ev), slow)
    else if Truthy(sub.projectId) && ev.projectId == sub.projectId.value
            && ev.conversationId != sub.conversationId && ev.domain then
      Send(c, ProjectEvent(ev), slow)
    else c
  }

  function ForwardStream(sub: Subscription, c: Conn, ev: Event, slow: bool): Conn {
    if ev.conversationId == sub.conversationId then Send(c, EventFrame(ev), slow)
    else if Truthy(sub.projectId) && ev.projectId == sub.projectId.value && ev.kind == LanePane then
      Send(c, ProjectSession(ev), slow)
    else c
  }

  /** The store's fan-out of an appended event. */
  function OnAppended(sub: Subscription, c: Conn, ev: Event, slow: bool): Conn {
    match c.stage
    case Subscribed => c.(durableBuffer := c.durableBuffer + [ev])
    case Replaying => c.(durableBuffer := c.durableBuffer + [ev])
    case Live => ForwardDurable(sub, c, ev, slow)
    case _ => c
  }

  /** The kernel's fan-out of a stream-only event. */
  function OnStreamed(sub: Subscription, c: Conn, ev: Event, slow: bool): Conn {
    match c.stage
    case Subscribed => c.(streamBuffer := c.streamBuffer + [ev])
    case Replaying => c.(streamBuffer := c.streamBuffer + [ev])
    case Live => ForwardStream(sub, c, ev, slow)
    case _ => c
  }

  function Accept(c: Conn): Conn {
    if c.stage == Dialed then c.(stage := Subscribed) else c
  }

  /** Read the backlog; `log` is the conversation's log at this moment. */
  function Snapshot(c: Conn, log: seq<Event>): Conn {
    if c.stage == Subscribed then c.(stage := Replaying, backlog := EventsAfter(log, c.lastSeq)) else c
  }

  predicate ReplayDone(c: Conn) { c.backlog == [] || c.replayed >= WS_MAX_REPLAY }

  function ReplayOne(c: Conn, slow: bool): Conn {
    if c.stage != Replaying || ReplayDone(c) then c
    else if slow then Send(c, EventFrame(c.backlog[0]), slow).(stage := Aborted)
    else
      Send(c, EventFrame(c.backlog[0]), slow).(
        lastSeq := c.backlog[0].number, backlog := c.backlog[1..], replayed := c.replayed + 1)
  }

  /** Forward a buffer; `slow` holds the positions at which the socket is congested. */
  function ForwardDurables(sub: Subscription, c: Conn, evs: seq<Event>, slow: set<nat>, at: nat): Conn
    decreases |evs|
  {
    if evs == [] then c
    else ForwardDurables(sub, ForwardDurable(sub, c, evs[0], at in slow), evs[1..], slow, at + 1)
  }

  function ForwardStreams(sub: Subscription, c: Conn, evs: seq<Event>, slow: set<nat>, at: nat): Conn
    decreases |evs|
  {
    if evs == [] then c
    else ForwardStreams(sub, ForwardStream(sub, c, evs[0], at in slow), evs[1..], slow, at + 1)
  }

  /** The end of replay: go live, flush both buffers, and say so. */
  function Finish(sub: Subscription, c: Conn, slow: set<nat>): Conn {
    if c.stage != Replaying || !ReplayDone(c) then c
    else
      var live := c.(stage := Live, durableBuffer := [], streamBuffer := []);
      var flushed := ForwardDurables(sub, live, c.durableBuffer, slow, 0);
      var streamed := ForwardStreams(sub, flushed, c.streamBuffer, slow, |c.durableBuffer|);
      Send(streamed, Replayed(streamed.lastSeq), |c.durableBuffer| + |c.streamBuffer| in slow)
  }

  /** The socket closed or failed: no more fan-out, no more frames. */
  function Cleanup(c: Conn): Conn {
    c.(stage := Aborted, terminated := true)
  }

  /** Replay without interruption, as the handler does it. */
  function ReplayAll(c: Conn, slow: set<nat>, at: nat): Conn
    decreases |c.backlog|
  {
    if c.stage != Replaying || ReplayDone(c) then c
    else if at in slow then ReplayOne(c, true)
    else ReplayAll(ReplayOne(c, false), slow, at + 1)
  }

  // ---- the handler ----

  class EventSocket {
    const sub: Subscription
    var stage: Stage
    var lastSeq: nat
    ghost var backlog: seq<Event>
    var replayed: nat
    var durableBuffer: seq<Event>
    var streamBuffer: seq<Event>
    var flight: seq<Frame>
    var terminated: bool

    ghost function View(): Conn
      reads this
    {
      Conn(stage, lastSeq, backlog, replayed, durableBuffer, streamBuffer, flight, terminated)
    }

    constructor (sub: Subscription, sinceSeq: nat)
      ensures this.sub == sub && View() == Accept(Dial(sinceSeq))
    {
      this.sub := sub;
      stage, lastSeq, replayed, terminated := Subscribed, sinceSeq, 0, false;
      backlog, durableBuffer, streamBuffer, flight := [], [], [], [];
    }

    method SafeSend(f: Frame, slow: bool) returns (sent: bool)
      modifies this`flight, this`terminated
      ensures View() == Send(old(View()), f, slow) && sent == !slow
    {
      if slow {
        terminated := true;
        return false;
      }
      if !terminated {
        flight := flight + [f];
      }
      return true;
    }

    method DoForwardDurable(ev: Event, slow: bool)
      modifies this`flight, this`terminated, this`lastSeq
      ensures View() == ForwardDurable(sub, old(View()), ev, slow)
    {
      if ev.conversationId == sub.conversationId && ev.number > lastSeq {
        lastSeq := ev.number;
        var _ := SafeSend(EventFrame(ev), slow);
        return;
      }
      if Truthy(sub.projectId) && ev.projectId == sub.projectId.value
         && ev.conversationId != sub.conversationId && ev.domain {
        var _ := SafeSend(ProjectEvent(ev), slow);
      }
    }

    method DoForwardStream(ev: Event, slow: bool)
      modifies this`flight, this`terminated
      ensures View() == ForwardStream(sub, old(View()), ev, slow)
    {
      if ev.conversationId == sub.conversationId {
        var _ := SafeSend(EventFrame(ev), slow);
        return;
      }
      if Truthy(sub.projectId) && ev.projectId == sub.projectId.value && ev.kind == LanePane {
        var _ := SafeSend(ProjectSession(ev), slow);
      }
    }

    method Appended(ev: Event, slow: bool)
      modifies this
      ensures View() == OnAppended(sub, old(View()), ev, slow)
    {
      if stage == Subscribed || stage == Replaying {
        durableBuffer := durableBuffer + [ev];
      } else if stage == Live {
        DoForwardDurable(ev, slow);
      }
    }

    method Streamed(ev: Event, slow: bool)
      modifies this
      ensures View() == OnStreamed(sub, old(View()), ev, slow)
    {
      if stage == Subscribed || stage == Replaying {
        streamBuffer := streamBuffer + [ev];
      } else if stage == Live {
        DoForwardStream(ev, slow);
      }
    }

    /** Replay a snapshot of the conversation's log, then flush; the two congestion sets are the environment's. */
    method Replay(log: seq<Event>, slowReplay: set<nat>, slowFlush: set<nat>)
      requires stage == Subscribed
      modifies this
      ensures View() == Finish(sub, ReplayAll(Snapshot(old(View()), log), slowReplay, 0), slowFlush)
    {
      var events := EventsAfter(log, lastSeq);
      backlog := events;
      stage := Replaying;
      ghost var start := View();
      var i := 0;
      while i < |events| && replayed < WS_MAX_REPLAY
        invariant 0 <= i <= |events| && stage == Replaying && backlog == events[i..]
        invariant durableBuffer == start.durableBuffer && streamBuffer == start.streamBuffer
        invariant ReplayAll(start, slowReplay, 0) == ReplayAll(View(), slowReplay, i)
      {
        var ev := events[i];
        ghost var before := View();
        var sent := SafeSend(EventFrame(ev), i in slowReplay);
        if !sent {
          stage := Aborted;
          assert View() == ReplayOne(before, true);
          return;
        }
        lastSeq := ev.number;
        replayed := replayed + 1;
        backlog := backlog[1..];
        i := i + 1;
        assert View() == ReplayOne(before, false);
        assert ReplayAll(before, slowReplay, i - 1) == ReplayAll(View(), slowReplay, i);
      }
      Flush(slowFlush);
    }

    method SocketGone()
      modifies this
      ensures View() == Cleanup(old(View()))
    {
      stage := Aborted;
      terminated := true;
    }

    method Flush(slow: set<nat>)
      requires stage == Replaying && ReplayDone(View())
      modifies this
      ensures View() == Finish(sub, old(View()), slow)
    {
      stage := Live;
      var durables, streams := durableBuffer, streamBuffer;
      durableBuffer, streamBuffer := [], [];
      FlushDurables(durables, slow);
      FlushStreams(streams, slow, |durables|);
      var _ := SafeSend(Replayed(lastSeq), |durables| + |streams| in slow);
    }

    method FlushDurables(durables: seq<Event>, slow: set<nat>)
      modifies this
      ensures View() == ForwardDurables(sub, old(View()), durables, slow, 0)
    {
      ghost var live := View();
      for i := 0 to |durables|
        invariant ForwardDurables(sub, live, durables, slow, 0) == ForwardDurables(sub, View(), durables[i..], slow, i)
      {
        ghost var before, rest := View(), durables[i..];
        DoForwardDurable(durables[i], i in slow);
        assert rest[1..] == durables[i + 1..] && View() == ForwardDurable(sub, before, rest[0], i in slow);
      }
    }

    method FlushStreams(streams: seq<Event>, slow: set<nat>, at: nat)
      modifies this
      ensures View() == ForwardStreams(sub, old(View()), streams, slow, at)
    {
      ghost var live := View();
      for i := 0 to |streams|
        invariant ForwardStreams(sub, live, streams, slow, at)
          == ForwardStreams(sub, View(), streams[i..], slow, at + i)
      {
        ghost var before, rest := View(), streams[i..];
        DoForwardStream(streams[i], at + i in slow);
        assert rest[1..] == streams[i + 1..] && View() == ForwardStream(sub, before, rest[0], at + i in slow);
      }
    }
  }

  // ---- what one connection delivers ----

  /** The conversation's durable events among some frames, in order. */
  function DurableFrames(frames: seq<Frame>): seq<Event> {
    if frames == [] then []
    else
      var n := |frames| - 1;
      DurableFrames(frames[..n])
      + (if frames[n].EventFrame? && !StreamOnly(frames[n].event) then [frames[n].event] else [])
  }

  lemma DurableFramesSnoc(frames: seq<Frame>, f: Frame)
    ensures DurableFrames(frames + [f]) ==
      DurableFrames(frames) + (if f.EventFrame? && !StreamOnly(f.event) then [f.event] else [])
  {
    assert (frames + [f])[..|frames|] == frames;
  }

  /** How a frame leaves the socket: first in, first out. */
  lemma {:induction false} DurableFramesTail(frames: seq<Frame>)
    requires frames != []
    ensures DurableFrames(frames) ==
      (if frames[0].EventFrame? && !StreamOnly(frames[0].event) then [frames[0].event] else [])
      + DurableFrames(frames[1..])
  {
    var n := |frames| - 1;
    if n > 0 {
      DurableFramesTail(frames[..n]);
      assert frames[..n][1..] == frames[1..][..n - 1];
    }
  }

  /** A replay in progress: everything from the cursor on was sent, the rest of the log is waiting. */
  predicate Serving(c: Conn, log: seq<Event>, sinceSeq: nat) {
    && c.stage == Replaying && !c.terminated && c.durableBuffer == [] && c.streamBuffer == []
    && sinceSeq <= c.lastSeq <= |log|
    && c.backlog == log[c.lastSeq..]
    && c.replayed == c.lastSeq - sinceSeq <= WS_MAX_REPLAY
    && DurableFrames(c.flight) == log[sinceSeq..c.lastSeq]
  }

  lemma ReplayOneServes(c: Conn, log: seq<Event>, sinceSeq: nat, conversationId: string)
    requires Numbered(log, conversationId) && Serving(c, log, sinceSeq) && !ReplayDone(c)
    ensures Serving(ReplayOne(c, false), log, sinceSeq)
  {
    assert c.backlog[0] == log[c.lastSeq];
    DurableFramesSnoc(c.flight, EventFrame(c.backlog[0]));
    assert log[sinceSeq..c.lastSeq] + [log[c.lastSeq]] == log[sinceSeq..c.lastSeq + 1];
  }

  lemma {:induction false} ReplayAllServes(c: Conn, log: seq<Event>, sinceSeq: nat, at: nat, conversationId: string)
    requires Numbered(log, conversationId) && Serving(c, log, sinceSeq)
    ensures var done := ReplayAll(c, {}, at); Serving(done, log, sinceSeq) && ReplayDone(done)
    decreases |c.backlog|
  {
    if !ReplayDone(c) {
      ReplayOneServes(c, log, sinceSeq, conversationId);
      ReplayAllServes(ReplayOne(c, false), log, sinceSeq, at + 1, conversationId);
    }
  }

  /**
   * One uncongested connection, served in one go: it gets the first 1000 events after its cursor,
   * so it is up to date exactly when no more than that were missing.
   */
  lemma ServedUpToDateExactly(sub: Subscription, log: seq<Event>, sinceSeq: nat)
    requires Numbered(log, sub.conversationId) && sinceSeq <= |log|
    ensures var c := Finish(sub, ReplayAll(Snapshot(Accept(Dial(sinceSeq)), log), {}, 0), {});
      && c.stage == Live && !c.terminated && sinceSeq <= c.lastSeq <= |log|
      && DurableFrames(c.flight) == log[sinceSeq..c.lastSeq]
      && (c.lastSeq == |log| <==> |log| - sinceSeq <= WS_MAX_REPLAY)
  {
    var c := Snapshot(Accept(Dial(sinceSeq)), log);
    ReplayAllServes(c, log, sinceSeq, 0, sub.conversationId);
    var done := ReplayAll(c, {}, 0);
    DurableFramesSnoc(done.flight, Replayed(done.lastSeq));
  }

  /**
   * A live connection that is behind skips: the next event it forwards jumps over everything it
   * has missed, and its own cursor with it.
   */
  lemma BehindMeansSkipping(sub: Subscription, c: Conn, log: seq<Event>, ev: Event)
    requires c.stage == Live && !c.terminated && c.lastSeq < |log|
    requires ev.conversationId == sub.conversationId && ev.number == |log| + 1 && !StreamOnly(ev)
    ensures var next := OnAppended(sub, c, ev, false);
      && DurableFrames(next.flight) == DurableFrames(c.flight) + [ev]
      && next.lastSeq == ev.number > c.lastSeq + 1
  {
    DurableFramesSnoc(c.flight, EventFrame(ev));
  }
}
