/**
 * Live event delivery end to end: the append-only log, any number of server sockets, the
 * reconnecting client, the transcript it feeds, and the HTTP fallback, in every interleaving.
 */
module LiveDelivery {
  import opened Order
  import opened Events
  import opened EventServer
  import opened StreamClient
  import T = Transcript

  /**
   * `storedIds` and `streamIds` are the event ids handed out so far, to stored and to stream-only
   * events; `replies` the HTTP answers under way. `caughtUp` is
   * history: no connection the client used found a backlog beyond the replay bound.
   */
  datatype World = World(
    log: seq<Event>,
    storedIds: set<string>,
    streamIds: set<string>,
    client: Client,
    conns: map<nat, Conn>,
    transcript: T.State,
    replies: seq<seq<Event>>,
    caughtUp: bool)

  /** `slow` names the congested sockets, or in Flush the congested sends of one socket. */
  datatype Action =
    | Append(event: Event, slow: set<nat>)
    | Emit(event: Event, slow: set<nat>)
    | Accepted(socket: nat)
    | ReadBacklog(socket: nat)
    | Replay(socket: nat, slowOne: bool)
    | Flush(socket: nat, slow: set<nat>)
    | Vanish(socket: nat)
    | Deliver(socket: nat)
    | ClientInput(input: Input)
    | HttpAsk
    | HttpReply(reply: nat)

  function Log(w: World, sub: Subscription): seq<Event> { ConversationLog(w.log, sub.conversationId) }

  predicate FreshId(w: World, e: Event) { e.id != "" && e.id !in w.storedIds && e.id !in w.streamIds }

  /** A socket the client just made is dialed with the cursor it had. */
  function Dialing(before: Client, after: Client, conns: map<nat, Conn>): map<nat, Conn> {
    if after.socketsMade > before.socketsMade then conns[before.socketsMade := Dial(before.lastSeq)] else conns
  }

  /** Every event the client handles goes into the transcript. */
  function Absorb(s: T.State, before: Client, after: Client): T.State {
    if |after.calls| > |before.calls| && after.calls[|before.calls|].OnEvent?
    then T.Reduce(s, after.calls[|before.calls|].event) else s
  }

  function Update(w: World, socket: nat, c: Conn): World { w.(conns := w.conns[socket := c]) }

  /** One action; an action that is not possible now leaves the world as it is. */
  function Act(cfg: Config, sub: Subscription, w: World, a: Action): World {
    match a
    case Append(e, slow) =>
      if !FreshId(w, e) || StreamOnly(e) then w
      else
        var sealed := Seal(w.log, e);
        w.(log := w.log + [sealed], storedIds := w.storedIds + {e.id},
           conns := map s | s in w.conns :: OnAppended(sub, w.conns[s], sealed, s in slow))
    case Emit(e, slow) =>
      if !FreshId(w, e) || !StreamOnly(e) || e.number != 0 then w
      else
        w.(streamIds := w.streamIds + {e.id},
           conns := map s | s in w.conns :: OnStreamed(sub, w.conns[s], e, s in slow))
    case Accepted(s) => if s in w.conns then Update(w, s, Accept(w.conns[s])) else w
    case ReadBacklog(s) =>
      if s !in w.conns then w
      else
        var c := Snapshot(w.conns[s], Log(w, sub));
        Update(w, s, c).(caughtUp := w.caughtUp && (w.client.ws == Some(s) ==> |c.backlog| <= WS_MAX_REPLAY))
    case Replay(s, slow) => if s in w.conns then Update(w, s, ReplayOne(w.conns[s], slow)) else w
    case Flush(s, slow) => if s in w.conns then Update(w, s, Finish(sub, w.conns[s], slow)) else w
    case Vanish(s) => if s in w.conns then Update(w, s, Cleanup(w.conns[s])) else w
    case Deliver(s) =>
      if s !in w.conns || w.conns[s].flight == [] then w
      else
        var client := Receive(w.client, s, w.conns[s].flight[0]);
        Update(w, s, w.conns[s].(flight := w.conns[s].flight[1..])).(
          client := client, transcript := Absorb(w.transcript, w.client, client))
    case ClientInput(input) =>
      if input.Message? then w
      else
        var client := Step(cfg, w.client, input);
        w.(client := client, conns := Dialing(w.client, client, w.conns))
    case HttpAsk => w.(replies := w.replies + [EventsAfter(Log(w, sub), w.transcript.lastSeq)])
    case HttpReply(i) =>
      if i < |w.replies| then w.(transcript := T.Fold(w.transcript, w.replies[i])) else w
  }

  function Run(cfg: Config, sub: Subscription, w: World, actions: seq<Action>): World
    decreases |actions|
  {
    if actions == [] then w else Run(cfg, sub, Act(cfg, sub, w, actions[0]), actions[1..])
  }

  /** A client opened on a log that may already have a history. */
  function Opening(cfg: Config, log: seq<Event>, ids: set<string>, made: bool): World {
    var client := Started(cfg, 0, made);
    World(log, ids, {}, client, Dialing(Fresh(0), client, map[]), T.Empty(), [], true)
  }

  /** The durable events the client handled, in order. */
  function Handled(calls: seq<Call>): seq<Event> {
    if calls == [] then []
    else
      var n := |calls| - 1;
      Handled(calls[..n]) + (if calls[n].OnEvent? && !StreamOnly(calls[n].event) then [calls[n].event] else [])
  }

  lemma HandledSnoc(calls: seq<Call>, call: Call)
    ensures Handled(calls + [call]) ==
      Handled(calls) + (if call.OnEvent? && !StreamOnly(call.event) then [call.event] else [])
  {
    assert (calls + [call])[..|calls|] == calls;
  }

  // ---- order ----

  predicate Increasing(evs: seq<Event>) {
    forall i, j | 0 <= i < j < |evs| :: evs[i].number < evs[j].number
  }

  /** Events of the conversation, ascending, above `lo` and up to `hi`. */
  predicate Orderly(evs: seq<Event>, conversationId: string, lo: nat, hi: nat) {
    && Increasing(evs)
    && forall i | 0 <= i < |evs| :: lo < evs[i].number <= hi && evs[i].conversationId == conversationId
  }

  lemma OrderlySnoc(evs: seq<Event>, conversationId: string, lo: nat, hi: nat, e: Event)
    requires Orderly(evs, conversationId, lo, hi) && lo <= hi < e.number && e.conversationId == conversationId
    ensures Orderly(evs, conversationId, lo, e.number) && Orderly(evs + [e], conversationId, lo, e.number)
  {
  }

  /** Stored events, those of the conversation numbered up to `hi`. */
  predicate Stored(evs: seq<Event>, conversationId: string, hi: nat) {
    forall i | 0 <= i < |evs| ::
      !StreamOnly(evs[i]) && (evs[i].conversationId == conversationId ==> evs[i].number <= hi)
  }

  /** Stream-only events carry no number, and ids no stored event has. */
  predicate Streams(evs: seq<Event>, streamIds: set<string>) {
    forall i | 0 <= i < |evs| :: StreamOnly(evs[i]) && evs[i].number == 0 && evs[i].id in streamIds
  }

  predicate StreamFrames(frames: seq<Frame>, streamIds: set<string>) {
    forall i | 0 <= i < |frames| && frames[i].EventFrame? && StreamOnly(frames[i].event) ::
      frames[i].event.number == 0 && frames[i].event.id in streamIds
  }

  lemma {:induction false} ConversationLogTail(evs: seq<Event>, conversationId: string)
    requires evs != []
    ensures ConversationLog(evs, conversationId) ==
      (if evs[0].conversationId == conversationId then [evs[0]] else []) + ConversationLog(evs[1..], conversationId)
  {
    var n := |evs| - 1;
    if n > 0 {
      ConversationLogTail(evs[..n], conversationId);
      assert evs[..n][1..] == evs[1..][..n - 1];
    }
  }

  // ---- one connection against the log ----

  function Sent(c: Conn): seq<Event> { DurableFrames(c.flight) }

  predicate Buffering(c: Conn) { c.stage == Subscribed || c.stage == Replaying }

  /** The backlog continues where the server's cursor is. */
  predicate Continues(backlog: seq<Event>, conversationId: string, lastSeq: nat) {
    forall i | 0 <= i < |backlog| ::
      backlog[i].number == lastSeq + 1 + i && backlog[i].conversationId == conversationId && !StreamOnly(backlog[i])
  }

  /**
   * What holds of a connection however congested it is and however far behind: the durable events
   * in flight are ascending, between the client's cursor and the server's. `n` is the log's length.
   */
  predicate Sound(sub: Subscription, c: Conn, n: nat, cursor: nat) {
    && cursor <= c.lastSeq <= n
    && Orderly(Sent(c), sub.conversationId, cursor, c.lastSeq)
    && Stored(c.durableBuffer, sub.conversationId, n)
    && (c.stage == Replaying ==> c.lastSeq + |c.backlog| <= n && Continues(c.backlog, sub.conversationId, c.lastSeq))
    && (c.stage == Dialed || c.stage == Subscribed ==> c.flight == [] && c.lastSeq == cursor && c.replayed == 0)
  }

  predicate StreamsOk(c: Conn, streamIds: set<string>) {
    StreamFrames(c.flight, streamIds) && Streams(c.streamBuffer, streamIds)
  }

  /** `evs` are the entries of the log from `at` on. */
  predicate At(evs: seq<Event>, log: seq<Event>, at: nat) {
    at + |evs| <= |log| && evs == log[at..at + |evs|]
  }

  /** The conversation's events that `evs` ends with are the last of the log. */
  function Mine(sub: Subscription, evs: seq<Event>): seq<Event> { ConversationLog(evs, sub.conversationId) }

  predicate Tail(evs: seq<Event>, log: seq<Event>) {
    |evs| <= |log| && At(evs, log, |log| - |evs|)
  }

  /**
   * What holds in addition while no backlog exceeded the bound: nothing is missing between the
   * client's cursor and what was sent, between that and the log, or in the buffer.
   */
  predicate Gapless(sub: Subscription, c: Conn, log: seq<Event>, cursor: nat) {
    && At(Sent(c), log, cursor)
    && (!c.terminated ==> cursor + |Sent(c)| == c.lastSeq)
    && (c.stage == Dialed ==> c.durableBuffer == [])
    && (c.stage == Dialed || Buffering(c) ==> !c.terminated)
    && (Buffering(c) ==> Tail(Mine(sub, c.durableBuffer), log))
    && (c.stage == Replaying ==>
          && At(c.backlog, log, c.lastSeq)
          && |log| <= c.lastSeq + |c.backlog| + |Mine(sub, c.durableBuffer)|
          && c.replayed + |c.backlog| <= WS_MAX_REPLAY)
    && (c.stage == Live && !c.terminated ==> c.lastSeq == |log|)
  }

  lemma AtSnoc(evs: seq<Event>, log: seq<Event>, at: nat, e: Event)
    requires At(evs, log, at) && at + |evs| < |log| && log[at + |evs|] == e
    ensures At(evs + [e], log, at)
  {
  }

  lemma AtGrows(evs: seq<Event>, log: seq<Event>, at: nat, e: Event)
    ensures At(evs, log, at) ==> At(evs, log + [e], at)
  {
  }

  lemma AtRest(evs: seq<Event>, log: seq<Event>, at: nat)
    requires At(evs, log, at) && evs != []
    ensures evs[0] == log[at] && At(evs[1..], log, at + 1)
  {
  }

  lemma TailGrows(evs: seq<Event>, log: seq<Event>, e: Event)
    requires Tail(evs, log)
    ensures Tail(evs + [e], log + [e])
  {
  }

  /** Sending a frame that is not a durable event of the conversation. */
  lemma SendOther(c: Conn, f: Frame, slow: bool, streamIds: set<string>)
    requires f.EventFrame? ==> Streams([f.event], streamIds)
    ensures Sent(Send(c, f, slow)) == Sent(c)
    ensures StreamFrames(c.flight, streamIds) ==> StreamFrames(Send(c, f, slow).flight, streamIds)
  {
    DurableFramesSnoc(c.flight, f);
    assert f.EventFrame? ==> StreamOnly([f.event][0]);
  }

  /** Sending the next durable event of the conversation. */
  lemma SendDurable(c: Conn, e: Event, slow: bool, conversationId: string, cursor: nat, streamIds: set<string>)
    requires cursor <= c.lastSeq < e.number && e.conversationId == conversationId && !StreamOnly(e)
    requires Orderly(Sent(c), conversationId, cursor, c.lastSeq)
    ensures var next := Send(c, EventFrame(e), slow);
      && Sent(next) == (if next.terminated then Sent(c) else Sent(c) + [e])
      && Orderly(Sent(next), conversationId, cursor, e.number)
      && (StreamFrames(c.flight, streamIds) ==> StreamFrames(next.flight, streamIds))
  {
    DurableFramesSnoc(c.flight, EventFrame(e));
    OrderlySnoc(Sent(c), conversationId, cursor, c.lastSeq, e);
  }

  // ---- replay ----

  lemma SnapshotSound(sub: Subscription, c: Conn, log: seq<Event>, cursor: nat)
    requires Sound(sub, c, |log|, cursor) && Numbered(log, sub.conversationId)
    ensures Sound(sub, Snapshot(c, log), |log|, cursor)
  {
  }

  lemma SnapshotGapless(sub: Subscription, c: Conn, log: seq<Event>, cursor: nat)
    requires Sound(sub, c, |log|, cursor) && Gapless(sub, c, log, cursor)
    requires |Snapshot(c, log).backlog| <= WS_MAX_REPLAY
    ensures Gapless(sub, Snapshot(c, log), log, cursor)
  {
  }

  lemma ReplayOneSound(sub: Subscription, c: Conn, slow: bool, n: nat, cursor: nat, streamIds: set<string>)
    requires Sound(sub, c, n, cursor) && StreamsOk(c, streamIds)
    ensures Sound(sub, ReplayOne(c, slow), n, cursor) && StreamsOk(ReplayOne(c, slow), streamIds)
  {
    if c.stage == Replaying && !ReplayDone(c) {
      SendDurable(c, c.backlog[0], slow, sub.conversationId, cursor, streamIds);
    }
  }

  lemma ReplayOneGapless(sub: Subscription, c: Conn, slow: bool, log: seq<Event>, cursor: nat)
    requires Sound(sub, c, |log|, cursor) && Gapless(sub, c, log, cursor)
    ensures Gapless(sub, ReplayOne(c, slow), log, cursor)
  {
    if c.stage == Replaying && !ReplayDone(c) {
      var e := c.backlog[0];
      AtRest(c.backlog, log, c.lastSeq);
      DurableFramesSnoc(c.flight, EventFrame(e));
      AtSnoc(Sent(c), log, cursor, e);
    }
  }

  // ---- the flush ----

  /** A flush under way: `rest` is what the durable buffer still holds. */
  predicate Flushing(sub: Subscription, c: Conn, rest: seq<Event>, n: nat, cursor: nat) {
    && c.stage == Live && c.durableBuffer == [] && cursor <= c.lastSeq <= n
    && Orderly(Sent(c), sub.conversationId, cursor, c.lastSeq)
    && Stored(rest, sub.conversationId, n)
  }

  /** In a gapless flush the rest reaches from the server's cursor, or before it, to the end of the log. */
  predicate FlushingGapless(sub: Subscription, c: Conn, rest: seq<Event>, log: seq<Event>, cursor: nat) {
    && At(Sent(c), log, cursor)
    && (!c.terminated ==> cursor + |Sent(c)| == c.lastSeq)
    && Tail(Mine(sub, rest), log) && |log| <= c.lastSeq + |Mine(sub, rest)|
  }

  /** What forwarding a stored event does to a connection, whoever's event it is. */
  lemma {:induction false} ForwardDurableShape(
    sub: Subscription, c: Conn, e: Event, slow: bool, cursor: nat, streamIds: set<string>)
    requires cursor <= c.lastSeq && Orderly(Sent(c), sub.conversationId, cursor, c.lastSeq) && !StreamOnly(e)
    ensures var next := ForwardDurable(sub, c, e, slow);
      && next == c.(lastSeq := next.lastSeq, flight := next.flight, terminated := next.terminated)
      && next.lastSeq ==
         (if e.conversationId == sub.conversationId && e.number > c.lastSeq then e.number else c.lastSeq)
      && Orderly(Sent(next), sub.conversationId, cursor, next.lastSeq)
      && (StreamFrames(c.flight, streamIds) ==> StreamFrames(next.flight, streamIds))
  {
    var next := ForwardDurable(sub, c, e, slow);
    if e.conversationId == sub.conversationId && e.number > c.lastSeq {
      SendDurable(c, e, slow, sub.conversationId, cursor, streamIds);
      assert next.lastSeq == e.number && next.flight == Send(c, EventFrame(e), slow).flight;
    } else {
      SendOther(c, ProjectEvent(e), slow, streamIds);
      assert next.lastSeq == c.lastSeq && Sent(next) == Sent(c);
    }
  }

  lemma {:induction false} ForwardDurableSound(
    sub: Subscription, c: Conn, rest: seq<Event>, slow: bool, n: nat, cursor: nat, streamIds: set<string>)
    requires rest != [] && Flushing(sub, c, rest, n, cursor) && StreamFrames(c.flight, streamIds)
    ensures var next := ForwardDurable(sub, c, rest[0], slow);
      Flushing(sub, next, rest[1..], n, cursor) && StreamFrames(next.flight, streamIds)
  {
    ForwardDurableShape(sub, c, rest[0], slow, cursor, streamIds);
    assert Stored(rest[1..], sub.conversationId, n);
  }

  lemma ForwardDurableGapless(sub: Subscription, c: Conn, rest: seq<Event>, slow: bool, log: seq<Event>, cursor: nat)
    requires Numbered(log, sub.conversationId)
    requires rest != [] && Stored(rest, sub.conversationId, |log|) && FlushingGapless(sub, c, rest, log, cursor)
    ensures FlushingGapless(sub, ForwardDurable(sub, c, rest[0], slow), rest[1..], log, cursor)
  {
    if rest[0].conversationId == sub.conversationId {
      ForwardMineGapless(sub, c, rest, slow, log, cursor);
    } else {
      ConversationLogTail(rest, sub.conversationId);
      DurableFramesSnoc(c.flight, ProjectEvent(rest[0]));
      assert Mine(sub, rest) == Mine(sub, rest[1..]);
    }
  }

  lemma {:induction false} ForwardMineGapless(
    sub: Subscription, c: Conn, rest: seq<Event>, slow: bool, log: seq<Event>, cursor: nat)
    requires Numbered(log, sub.conversationId) && rest != [] && rest[0].conversationId == sub.conversationId
    requires Stored(rest, sub.conversationId, |log|) && FlushingGapless(sub, c, rest, log, cursor)
    ensures FlushingGapless(sub, ForwardDurable(sub, c, rest[0], slow), rest[1..], log, cursor)
  {
    var e, mine := rest[0], Mine(sub, rest);
    ConversationLogTail(rest, sub.conversationId);
    assert mine == [e] + Mine(sub, rest[1..]);
    AtRest(mine, log, |log| - |mine|);
    assert mine[1..] == Mine(sub, rest[1..]);
    DurableFramesSnoc(c.flight, EventFrame(e));
    if e.number > c.lastSeq {
      AtSnocIfLast(Sent(c), log, cursor, e, c.lastSeq);
    }
  }

  lemma AtSnocIfLast(evs: seq<Event>, log: seq<Event>, at: nat, e: Event, lastSeq: nat)
    requires At(evs, log, at) && lastSeq < |log| && log[lastSeq] == e
    ensures at + |evs| == lastSeq ==> At(evs + [e], log, at)
  {
  }

  lemma {:induction false} ForwardDurablesSound(sub: Subscription, c: Conn, rest: seq<Event>, slow: set<nat>, at: nat,
                                                n: nat, cursor: nat, streamIds: set<string>)
    requires Flushing(sub, c, rest, n, cursor) && StreamFrames(c.flight, streamIds)
    ensures var done := ForwardDurables(sub, c, rest, slow, at);
      && Flushing(sub, done, [], n, cursor) && StreamFrames(done.flight, streamIds)
      && done == c.(lastSeq := done.lastSeq, flight := done.flight, terminated := done.terminated)
    decreases |rest|
  {
    if rest != [] {
      ForwardDurableSound(sub, c, rest, at in slow, n, cursor, streamIds);
      var next := ForwardDurable(sub, c, rest[0], at in slow);
      ForwardDurablesSound(sub, next, rest[1..], slow, at + 1, n, cursor, streamIds);
    }
  }

  lemma {:induction false} ForwardDurablesGapless(sub: Subscription, c: Conn, rest: seq<Event>, slow: set<nat>, at: nat,
                                                  log: seq<Event>, cursor: nat)
    requires Numbered(log, sub.conversationId)
    requires Stored(rest, sub.conversationId, |log|) && FlushingGapless(sub, c, rest, log, cursor)
    ensures FlushingGapless(sub, ForwardDurables(sub, c, rest, slow, at), [], log, cursor)
    decreases |rest|
  {
    if rest != [] {
      ForwardDurableGapless(sub, c, rest, at in slow, log, cursor);
      ForwardDurablesGapless(sub, ForwardDurable(sub, c, rest[0], at in slow), rest[1..], slow, at + 1, log, cursor);
    }
  }

  /** A stream-only event sends nothing of the log. */
  lemma {:induction false} ForwardStreamKeeps(sub: Subscription, c: Conn, e: Event, slow: bool, streamIds: set<string>)
    requires Streams([e], streamIds)
    ensures var next := ForwardStream(sub, c, e, slow);
      && next == c.(flight := next.flight, terminated := next.terminated)
      && Sent(next) == Sent(c) && (c.terminated ==> next.terminated)
      && (StreamFrames(c.flight, streamIds) ==> StreamFrames(next.flight, streamIds))
  {
    if e.conversationId == sub.conversationId {
      SendOther(c, EventFrame(e), slow, streamIds);
    } else {
      SendOther(c, ProjectSession(e), slow, streamIds);
    }
  }

  /** Stream-only events in a buffer never change what was sent of the log. */
  lemma {:induction false} ForwardStreamsKeep(
    sub: Subscription, c: Conn, rest: seq<Event>, slow: set<nat>, at: nat, streamIds: set<string>)
    requires StreamFrames(c.flight, streamIds) && Streams(rest, streamIds)
    ensures var done := ForwardStreams(sub, c, rest, slow, at);
      && Sent(done) == Sent(c) && StreamFrames(done.flight, streamIds)
      && done == c.(flight := done.flight, terminated := done.terminated)
      && (c.terminated ==> done.terminated)
    decreases |rest|
  {
    if rest != [] {
      var e := rest[0];
      assert [e][0] == e;
      ForwardStreamKeeps(sub, c, e, at in slow, streamIds);
      ForwardStreamsKeep(sub, ForwardStream(sub, c, e, at in slow), rest[1..], slow, at + 1, streamIds);
    }
  }

  lemma {:induction false} FinishSound(
    sub: Subscription, c: Conn, slow: set<nat>, n: nat, cursor: nat, streamIds: set<string>)
    requires Sound(sub, c, n, cursor) && StreamsOk(c, streamIds)
    ensures Sound(sub, Finish(sub, c, slow), n, cursor) && StreamsOk(Finish(sub, c, slow), streamIds)
  {
    if c.stage == Replaying && ReplayDone(c) {
      var live := c.(stage := Live, durableBuffer := [], streamBuffer := []);
      ForwardDurablesSound(sub, live, c.durableBuffer, slow, 0, n, cursor, streamIds);
      var flushed := ForwardDurables(sub, live, c.durableBuffer, slow, 0);
      ForwardStreamsKeep(sub, flushed, c.streamBuffer, slow, |c.durableBuffer|, streamIds);
      var streamed := ForwardStreams(sub, flushed, c.streamBuffer, slow, |c.durableBuffer|);
      var last := |c.durableBuffer| + |c.streamBuffer| in slow;
      var done := Send(streamed, Replayed(streamed.lastSeq), last);
      SendOther(streamed, Replayed(streamed.lastSeq), last, streamIds);
      assert Flushing(sub, done, [], n, cursor);
      FlushedIsSound(sub, done, n, cursor, streamIds);
      assert Finish(sub, c, slow) == done;
    }
  }

  /** Flushing to the end leaves a live connection with empty buffers. */
  lemma {:induction false} FlushedIsSound(sub: Subscription, c: Conn, n: nat, cursor: nat, streamIds: set<string>)
    requires Flushing(sub, c, [], n, cursor) && c.streamBuffer == [] && StreamFrames(c.flight, streamIds)
    ensures Sound(sub, c, n, cursor) && StreamsOk(c, streamIds)
  {
  }

  lemma FinishGapless(sub: Subscription, c: Conn, slow: set<nat>, log: seq<Event>, cursor: nat, streamIds: set<string>)
    requires Numbered(log, sub.conversationId)
    requires Sound(sub, c, |log|, cursor) && StreamsOk(c, streamIds) && Gapless(sub, c, log, cursor)
    ensures Gapless(sub, Finish(sub, c, slow), log, cursor)
  {
    if c.stage == Replaying && ReplayDone(c) {
      var live := c.(stage := Live, durableBuffer := [], streamBuffer := []);
      ForwardDurablesSound(sub, live, c.durableBuffer, slow, 0, |log|, cursor, streamIds);
      ForwardDurablesGapless(sub, live, c.durableBuffer, slow, 0, log, cursor);
      var flushed := ForwardDurables(sub, live, c.durableBuffer, slow, 0);
      ForwardStreamsKeep(sub, flushed, c.streamBuffer, slow, |c.durableBuffer|, streamIds);
      var streamed := ForwardStreams(sub, flushed, c.streamBuffer, slow, |c.durableBuffer|);
      SendOther(streamed, Replayed(streamed.lastSeq), |c.durableBuffer| + |c.streamBuffer| in slow, streamIds);
    }
  }

  // ---- fan-out ----

  lemma {:induction false} AppendedSound(
    sub: Subscription, c: Conn, e: Event, slow: bool, n: nat, cursor: nat, streamIds: set<string>)
    requires Sound(sub, c, n, cursor) && StreamsOk(c, streamIds) && !StreamOnly(e)
    requires e.conversationId == sub.conversationId ==> e.number == n + 1
    ensures var next, m := OnAppended(sub, c, e, slow), if e.conversationId == sub.conversationId then n + 1 else n;
      Sound(sub, next, m, cursor) && StreamsOk(next, streamIds)
  {
    var m := if e.conversationId == sub.conversationId then n + 1 else n;
    StoredSnoc(c.durableBuffer, e, sub.conversationId, n, m);
    if c.stage == Live {
      ForwardDurableShape(sub, c, e, slow, cursor, streamIds);
    }
  }

  lemma {:induction false} StoredSnoc(evs: seq<Event>, e: Event, conversationId: string, n: nat, m: nat)
    requires Stored(evs, conversationId, n) && n <= m && !StreamOnly(e)
    requires e.conversationId == conversationId ==> e.number <= m
    ensures Stored(evs, conversationId, m) && Stored(evs + [e], conversationId, m)
  {
  }

  /** A gapless connection sees the log grow by an event of its conversation. */
  lemma {:induction false} AppendedMineGapless(
    sub: Subscription, c: Conn, e: Event, slow: bool, log: seq<Event>, cursor: nat)
    requires Sound(sub, c, |log|, cursor) && Gapless(sub, c, log, cursor)
    requires e.conversationId == sub.conversationId && e.number == |log| + 1 && !StreamOnly(e)
    ensures Gapless(sub, OnAppended(sub, c, e, slow), log + [e], cursor)
  {
    AtGrows(Sent(c), log, cursor, e);
    AtGrows(c.backlog, log, c.lastSeq, e);
    DurableFramesSnoc(c.flight, EventFrame(e));
    ConversationLogAppend(c.durableBuffer, e, sub.conversationId);
    if Buffering(c) {
      TailGrows(Mine(sub, c.durableBuffer), log, e);
    } else if c.stage == Live {
      AtSnocIfLast(Sent(c), log + [e], cursor, e, |log|);
    }
  }

  /** And by an event of another one. */
  lemma AppendedOtherGapless(sub: Subscription, c: Conn, e: Event, slow: bool, log: seq<Event>, cursor: nat)
    requires Gapless(sub, c, log, cursor) && e.conversationId != sub.conversationId
    ensures Gapless(sub, OnAppended(sub, c, e, slow), log, cursor)
  {
    if c.stage == Live {
      DurableFramesSnoc(c.flight, ProjectEvent(e));
    } else {
      ConversationLogAppend(c.durableBuffer, e, sub.conversationId);
      assert Mine(sub, c.durableBuffer) + [] == Mine(sub, c.durableBuffer);
    }
  }

  lemma StreamsGrow(c: Conn, streamIds: set<string>, id: string)
    requires StreamsOk(c, streamIds)
    ensures StreamsOk(c, streamIds + {id})
  {
  }

  lemma {:induction false} StreamedSound(
    sub: Subscription, c: Conn, e: Event, slow: bool, n: nat, cursor: nat, streamIds: set<string>)
    requires Sound(sub, c, n, cursor) && StreamsOk(c, streamIds) && Streams([e], streamIds)
    ensures Sound(sub, OnStreamed(sub, c, e, slow), n, cursor) && StreamsOk(OnStreamed(sub, c, e, slow), streamIds)
  {
    StreamedShape(sub, c, e, slow, streamIds);
  }

  /** A stream-only event moves nothing but the stream buffer or the socket, and sends nothing of the log. */
  lemma {:induction false} StreamedShape(sub: Subscription, c: Conn, e: Event, slow: bool, streamIds: set<string>)
    requires Streams([e], streamIds)
    ensures var next := OnStreamed(sub, c, e, slow);
      && next == c.(streamBuffer := next.streamBuffer, flight := next.flight, terminated := next.terminated)
      && Sent(next) == Sent(c) && (c.terminated ==> next.terminated)
      && (c.stage != Live ==> next.flight == c.flight && next.terminated == c.terminated)
    ensures StreamsOk(c, streamIds) ==> StreamsOk(OnStreamed(sub, c, e, slow), streamIds)
  {
    if c.stage == Live {
      ForwardStreamKeeps(sub, c, e, slow, streamIds);
    } else {
      StreamsSnoc(c.streamBuffer, e, streamIds);
    }
  }

  lemma StreamsSnoc(evs: seq<Event>, e: Event, streamIds: set<string>)
    requires Streams([e], streamIds)
    ensures Streams(evs, streamIds) ==> Streams(evs + [e], streamIds)
  {
    assert [e][0] == e;
  }

  lemma {:induction false} StreamedGapless(
    sub: Subscription, c: Conn, e: Event, slow: bool, log: seq<Event>, cursor: nat, streamIds: set<string>)
    requires Gapless(sub, c, log, cursor) && Streams([e], streamIds)
    ensures Gapless(sub, OnStreamed(sub, c, e, slow), log, cursor)
  {
    StreamedShape(sub, c, e, slow, streamIds);
  }

  // ---- the world ----

  lemma OrderlyRest(evs: seq<Event>, conversationId: string, lo: nat, hi: nat)
    requires evs != [] && Orderly(evs, conversationId, lo, hi)
    ensures Orderly(evs[1..], conversationId, evs[0].number, hi)
  {
  }

  predicate LogOk(w: World, sub: Subscription) {
    var log := Log(w, sub);
    && Numbered(log, sub.conversationId) && T.DistinctIds(log)
    && (forall i | 0 <= i < |log| :: log[i].id in w.storedIds)
    && w.storedIds !! w.streamIds
  }

  predicate HasCurrent(w: World) { w.client.ws.Some? && w.client.ws.value in w.conns }

  function Current(w: World): Conn
    requires HasCurrent(w)
  {
    w.conns[w.client.ws.value]
  }

  /** What holds in every reachable world, however far behind a connection started. */
  predicate Healthy(cfg: Config, sub: Subscription, w: World) {
    && LogOk(w, sub)
    && OneDriver(cfg, w.client)
    && w.client.lastSeq <= |Log(w, sub)|
    && Orderly(Handled(w.client.calls), sub.conversationId, 0, w.client.lastSeq)
    && (w.client.ws.Some? ==> HasCurrent(w))
    && (HasCurrent(w) ==>
          Sound(sub, Current(w), |Log(w, sub)|, w.client.lastSeq) && StreamsOk(Current(w), w.streamIds))
  }

  predicate ReplyOk(reply: seq<Event>, log: seq<Event>, shown: nat) {
    exists at | 0 <= at <= shown :: At(reply, log, at)
  }

  /** What holds in addition while no backlog exceeded the bound. */
  predicate Complete(sub: Subscription, w: World) {
    var log := Log(w, sub);
    && |Handled(w.client.calls)| == w.client.lastSeq && At(Handled(w.client.calls), log, 0)
    && (HasCurrent(w) ==> Gapless(sub, Current(w), log, w.client.lastSeq))
    && w.client.lastSeq <= w.transcript.lastSeq && T.Reflects(w.transcript, log, w.transcript.lastSeq)
    && w.transcript.seen <= w.storedIds + w.streamIds
    && (forall i | 0 <= i < |w.replies| :: ReplyOk(w.replies[i], log, w.transcript.lastSeq))
  }

  predicate Inv(cfg: Config, sub: Subscription, w: World) {
    Healthy(cfg, sub, w) && (w.caughtUp ==> Complete(sub, w))
  }

  lemma {:induction false} AppendKeeps(cfg: Config, sub: Subscription, w: World, e: Event, slow: set<nat>)
    requires Inv(cfg, sub, w)
    ensures Inv(cfg, sub, Act(cfg, sub, w, Append(e, slow)))
  {
    var next := Act(cfg, sub, w, Append(e, slow));
    if FreshId(w, e) && !StreamOnly(e) {
      var sealed, log := Seal(w.log, e), Log(w, sub);
      ConversationLogAppend(w.log, sealed, sub.conversationId);
      if HasCurrent(w) {
        AppendedSound(sub, Current(w), sealed, w.client.ws.value in slow, |log|, w.client.lastSeq, w.streamIds);
      }
      assert Healthy(cfg, sub, next);
      if w.caughtUp {
        AppendKeepsComplete(cfg, sub, w, e, slow);
      }
    }
  }

  lemma AppendKeepsComplete(cfg: Config, sub: Subscription, w: World, e: Event, slow: set<nat>)
    requires Healthy(cfg, sub, w) && Complete(sub, w) && FreshId(w, e) && !StreamOnly(e)
    ensures Complete(sub, Act(cfg, sub, w, Append(e, slow)))
  {
    var next := Act(cfg, sub, w, Append(e, slow));
    var sealed, log, shown := Seal(w.log, e), Log(w, sub), w.transcript.lastSeq;
    ConversationLogAppend(w.log, sealed, sub.conversationId);
    if e.conversationId == sub.conversationId {
      if HasCurrent(w) {
        AppendedMineGapless(sub, Current(w), sealed, w.client.ws.value in slow, log, w.client.lastSeq);
      }
      AtGrows(Handled(w.client.calls), log, 0, sealed);
      T.ReflectsGrowth(w.transcript, log, shown, sealed);
      forall i | 0 <= i < |w.replies| ensures ReplyOk(w.replies[i], log + [sealed], shown) {
        var at :| 0 <= at <= shown && At(w.replies[i], log, at);
        AtGrows(w.replies[i], log, at, sealed);
      }
    } else {
      assert Log(next, sub) == log;
      if HasCurrent(w) {
        AppendedOtherGapless(sub, Current(w), sealed, w.client.ws.value in slow, log, w.client.lastSeq);
      }
    }
  }

  lemma {:induction false} EmitKeeps(cfg: Config, sub: Subscription, w: World, e: Event, slow: set<nat>)
    requires Inv(cfg, sub, w)
    ensures Inv(cfg, sub, Act(cfg, sub, w, Emit(e, slow)))
  {
    if FreshId(w, e) && StreamOnly(e) && e.number == 0 && HasCurrent(w) {
      var ids := w.streamIds + {e.id};
      StreamsGrow(Current(w), w.streamIds, e.id);
      StreamedSound(sub, Current(w), e, w.client.ws.value in slow, |Log(w, sub)|, w.client.lastSeq, ids);
      if w.caughtUp {
        StreamedGapless(sub, Current(w), e, w.client.ws.value in slow, Log(w, sub), w.client.lastSeq, ids);
      }
    }
  }

  /** A change of one connection that keeps what is known of it keeps the world. */
  lemma UpdateKeeps(cfg: Config, sub: Subscription, w: World, s: nat, c: Conn)
    requires Inv(cfg, sub, w) && s in w.conns
    requires w.client.ws == Some(s) ==>
      && Sound(sub, c, |Log(w, sub)|, w.client.lastSeq) && StreamsOk(c, w.streamIds)
      && (w.caughtUp ==> Gapless(sub, c, Log(w, sub), w.client.lastSeq))
    ensures Inv(cfg, sub, Update(w, s, c))
  {
    var next := Update(w, s, c);
    assert Log(next, sub) == Log(w, sub);
    assert Healthy(cfg, sub, next);
  }

  /** What an action of its own makes of a connection. */
  function ServerStep(sub: Subscription, c: Conn, a: Action): Conn
    requires a.Accepted? || a.Replay? || a.Flush? || a.Vanish?
  {
    match a
    case Accepted(_) => Accept(c)
    case Replay(_, slow) => ReplayOne(c, slow)
    case Flush(_, slow) => Finish(sub, c, slow)
    case Vanish(_) => Cleanup(c)
  }

  lemma {:induction false} ServerStepSound(
    sub: Subscription, c: Conn, a: Action, n: nat, cursor: nat, streamIds: set<string>)
    requires a.Accepted? || a.Replay? || a.Flush? || a.Vanish?
    requires Sound(sub, c, n, cursor) && StreamsOk(c, streamIds)
    ensures Sound(sub, ServerStep(sub, c, a), n, cursor) && StreamsOk(ServerStep(sub, c, a), streamIds)
  {
    match a
    case Accepted(_) =>
    case Replay(_, slow) => ReplayOneSound(sub, c, slow, n, cursor, streamIds);
    case Flush(_, slow) => FinishSound(sub, c, slow, n, cursor, streamIds);
    case Vanish(_) =>
  }

  lemma {:induction false} ServerStepGapless(
    sub: Subscription, c: Conn, a: Action, log: seq<Event>, cursor: nat, streamIds: set<string>)
    requires a.Accepted? || a.Replay? || a.Flush? || a.Vanish?
    requires Numbered(log, sub.conversationId) && Sound(sub, c, |log|, cursor) && StreamsOk(c, streamIds)
    requires Gapless(sub, c, log, cursor)
    ensures Gapless(sub, ServerStep(sub, c, a), log, cursor)
  {
    match a
    case Accepted(_) =>
    case Replay(_, slow) => ReplayOneGapless(sub, c, slow, log, cursor);
    case Flush(_, slow) => FinishGapless(sub, c, slow, log, cursor, streamIds);
    case Vanish(_) =>
  }

  lemma {:induction false} ServerActionKeeps(cfg: Config, sub: Subscription, w: World, a: Action)
    requires Inv(cfg, sub, w) && (a.Accepted? || a.Replay? || a.Flush? || a.Vanish?)
    ensures Inv(cfg, sub, Act(cfg, sub, w, a))
  {
    var s := a.socket;
    if s in w.conns {
      var c, log, cursor := w.conns[s], Log(w, sub), w.client.lastSeq;
      if w.client.ws == Some(s) {
        ServerStepSound(sub, c, a, |log|, cursor, w.streamIds);
        if w.caughtUp {
          ServerStepGapless(sub, c, a, log, cursor, w.streamIds);
        }
      }
      UpdateKeeps(cfg, sub, w, s, ServerStep(sub, c, a));
      assert Act(cfg, sub, w, a) == Update(w, s, ServerStep(sub, c, a));
    }
  }

  lemma ReadBacklogKeeps(cfg: Config, sub: Subscription, w: World, s: nat)
    requires Inv(cfg, sub, w)
    ensures Inv(cfg, sub, Act(cfg, sub, w, ReadBacklog(s)))
  {
    if s in w.conns && w.client.ws == Some(s) {
      var c, log, cursor := w.conns[s], Log(w, sub), w.client.lastSeq;
      SnapshotSound(sub, c, log, cursor);
      if w.caughtUp && |Snapshot(c, log).backlog| <= WS_MAX_REPLAY {
        SnapshotGapless(sub, c, log, cursor);
      }
    }
  }

  /** Input from outside the stream says nothing about the log: at most it changes the socket. */
  lemma {:induction false} InputShape(cfg: Config, c: Client, input: Input)
    requires OneDriver(cfg, c) && !input.Message?
    ensures var next := Step(cfg, c, input);
      && OneDriver(cfg, next) && next.lastSeq == c.lastSeq && Handled(next.calls) == Handled(c.calls)
      && (if next.socketsMade == c.socketsMade then next.ws == c.ws || next.ws == None
          else next.socketsMade == c.socketsMade + 1 && next.ws == Some(c.socketsMade))
  {
    StepKeepsOneDriver(cfg, c, input);
    InputTellsNothing(cfg, c, input);
  }

  lemma {:induction false} InputTellsNothing(cfg: Config, c: Client, input: Input)
    requires !input.Message?
    ensures var next := Step(cfg, c, input);
      && next.lastSeq == c.lastSeq && Handled(next.calls) == Handled(c.calls)
      && (if next.socketsMade == c.socketsMade then next.ws == c.ws || next.ws == None
          else next.socketsMade == c.socketsMade + 1 && next.ws == Some(c.socketsMade))
  {
    match input
    case Opened(socket) => SetStateTellsNothing(c.(retries := 0), Open);
    case Dropped(socket) => ScheduleTellsNothing(cfg, c.(ws := None));
    case Fired(timer, made) => ConnectTellsNothing(cfg, c.(armed := c.armed - {timer}), made);
    case Revived(made) => ConnectTellsNothing(cfg, ClearTimer(c).(retries := 0, timer := None), made);
    case UserClosed => SetStateTellsNothing(ClearTimer(c.(closed := true)).(ws := None), Closed);
  }

  lemma SetStateTellsNothing(c: Client, s: StreamState)
    ensures Handled(SetState(c, s).calls) == Handled(c.calls)
  {
    HandledSnoc(c.calls, OnState(s));
  }

  lemma ScheduleTellsNothing(cfg: Config, c: Client)
    ensures var next := ScheduleReconnect(cfg, c);
      && Handled(next.calls) == Handled(c.calls)
      && next.lastSeq == c.lastSeq && next.ws == c.ws && next.socketsMade == c.socketsMade
  {
    SetStateTellsNothing(c, GaveUp);
    SetStateTellsNothing(c.(retries := c.retries + 1), Reconnecting);
  }

  lemma ConnectTellsNothing(cfg: Config, c: Client, made: bool)
    ensures var next := Connect(cfg, c, made);
      && Handled(next.calls) == Handled(c.calls) && next.lastSeq == c.lastSeq
      && (if next.socketsMade == c.socketsMade then next.ws == c.ws
          else next.socketsMade == c.socketsMade + 1 && next.ws == Some(c.socketsMade))
  {
    ScheduleTellsNothing(cfg, c);
    SetStateTellsNothing(c.(ws := Some(c.socketsMade), socketsMade := c.socketsMade + 1), Connecting);
  }

  lemma DialIsSound(sub: Subscription, log: seq<Event>, cursor: nat, streamIds: set<string>)
    requires cursor <= |log|
    ensures Sound(sub, Dial(cursor), |log|, cursor) && StreamsOk(Dial(cursor), streamIds)
    ensures Gapless(sub, Dial(cursor), log, cursor)
  {
  }

  lemma {:induction false} ClientInputKeeps(cfg: Config, sub: Subscription, w: World, input: Input)
    requires Inv(cfg, sub, w)
    ensures Inv(cfg, sub, Act(cfg, sub, w, ClientInput(input)))
  {
    if !input.Message? {
      InputShape(cfg, w.client, input);
      DialIsSound(sub, Log(w, sub), w.client.lastSeq, w.streamIds);
      var next := Act(cfg, sub, w, ClientInput(input));
      assert Log(next, sub) == Log(w, sub);
      assert Healthy(cfg, sub, next);
    }
  }

  lemma HttpAskKeeps(cfg: Config, sub: Subscription, w: World)
    requires Inv(cfg, sub, w)
    ensures Inv(cfg, sub, Act(cfg, sub, w, HttpAsk))
  {
    var next, log, shown := Act(cfg, sub, w, HttpAsk), Log(w, sub), w.transcript.lastSeq;
    assert Healthy(cfg, sub, next);
    if w.caughtUp {
      assert At(log[shown..], log, shown);
      assert forall i | 0 <= i < |w.replies| :: next.replies[i] == w.replies[i];
    }
  }

  lemma HttpReplyKeeps(cfg: Config, sub: Subscription, w: World, i: nat)
    requires Inv(cfg, sub, w)
    ensures Inv(cfg, sub, Act(cfg, sub, w, HttpReply(i)))
  {
    var next := Act(cfg, sub, w, HttpReply(i));
    assert Healthy(cfg, sub, next);
    if w.caughtUp && i < |w.replies| {
      ReplyFolds(sub, w, w.replies[i]);
      RepliesStay(w.replies, Log(w, sub), w.transcript.lastSeq, next.transcript.lastSeq);
    }
  }

  lemma {:induction false} ReplyFolds(sub: Subscription, w: World, reply: seq<Event>)
    requires LogOk(w, sub) && ReplyOk(reply, Log(w, sub), w.transcript.lastSeq)
    requires T.Reflects(w.transcript, Log(w, sub), w.transcript.lastSeq)
    requires w.transcript.seen <= w.storedIds + w.streamIds
    ensures var next := T.Fold(w.transcript, reply);
      && w.transcript.lastSeq <= next.lastSeq && T.Reflects(next, Log(w, sub), next.lastSeq)
      && next.seen <= w.storedIds + w.streamIds
  {
    var log, shown := Log(w, sub), w.transcript.lastSeq;
    var at :| 0 <= at <= shown && At(reply, log, at);
    ReplyReflects(w.transcript, log, reply, at, sub.conversationId);
    ReplyIds(w, sub, reply, at);
  }

  lemma {:induction false} ReplyReflects(
    t: T.State, log: seq<Event>, reply: seq<Event>, at: nat, conversationId: string)
    requires Numbered(log, conversationId) && T.DistinctIds(log)
    requires T.Reflects(t, log, t.lastSeq) && at <= t.lastSeq && At(reply, log, at)
    ensures var next := T.Fold(t, reply); t.lastSeq <= next.lastSeq && T.Reflects(next, log, next.lastSeq)
  {
    T.ReflectsBatch(t, log, t.lastSeq, at, at + |reply|, conversationId);
  }

  lemma {:induction false} ReplyIds(w: World, sub: Subscription, reply: seq<Event>, at: nat)
    requires LogOk(w, sub) && At(reply, Log(w, sub), at) && w.transcript.seen <= w.storedIds + w.streamIds
    ensures T.Fold(w.transcript, reply).seen <= w.storedIds + w.streamIds
  {
    SeenGrows(w.transcript, reply);
    forall k | 0 <= k < |reply| ensures reply[k].id in w.storedIds {
      assert reply[k] == Log(w, sub)[at + k];
    }
  }

  lemma RepliesStay(replies: seq<seq<Event>>, log: seq<Event>, shown: nat, more: nat)
    requires shown <= more && forall i | 0 <= i < |replies| :: ReplyOk(replies[i], log, shown)
    ensures forall i | 0 <= i < |replies| :: ReplyOk(replies[i], log, more)
  {
    forall i | 0 <= i < |replies| ensures ReplyOk(replies[i], log, more) {
      var at :| 0 <= at <= shown && At(replies[i], log, at);
    }
  }

  lemma {:induction false} SeenGrows(s: T.State, events: seq<Event>)
    ensures forall id | id in T.Fold(s, events).seen ::
      id in s.seen || exists k | 0 <= k < |events| :: events[k].id == id
    decreases |events|
  {
    if events != [] {
      SeenGrows(T.Reduce(s, events[0]), events[1..]);
      forall id | id in T.Fold(s, events).seen && id !in s.seen
        ensures exists k | 0 <= k < |events| :: events[k].id == id
      {
        if k :| 0 <= k < |events[1..]| && events[1..][k].id == id {
          assert events[k + 1].id == id;
        } else {
          assert events[0].id == id;
        }
      }
    }
  }

  // ---- delivery ----

  function Popped(c: Conn): Conn
    requires c.flight != []
  {
    c.(flight := c.flight[1..])
  }

  /** Handing the client a frame moves its cursor exactly past the durable event in it, if any. */
  lemma PopSound(sub: Subscription, c: Conn, n: nat, cursor: nat, streamIds: set<string>)
    requires Sound(sub, c, n, cursor) && StreamsOk(c, streamIds) && c.flight != []
    ensures var f := c.flight[0];
      if f.EventFrame? && !StreamOnly(f.event) then
        && cursor < f.event.number <= n && f.event.conversationId == sub.conversationId
        && Sound(sub, Popped(c), n, f.event.number) && StreamsOk(Popped(c), streamIds)
      else
        && (f.EventFrame? ==> f.event.number == 0 && f.event.id in streamIds)
        && Sound(sub, Popped(c), n, cursor) && StreamsOk(Popped(c), streamIds)
  {
    DurableFramesTail(c.flight);
    var f := c.flight[0];
    if f.EventFrame? && !StreamOnly(f.event) {
      assert Sent(c)[0] == f.event && Sent(c)[1..] == Sent(Popped(c));
      OrderlyRest(Sent(c), sub.conversationId, cursor, c.lastSeq);
    } else {
      assert Sent(Popped(c)) == Sent(c);
    }
  }

  lemma PopGapless(sub: Subscription, c: Conn, log: seq<Event>, cursor: nat)
    requires Gapless(sub, c, log, cursor) && c.flight != []
    ensures var f := c.flight[0];
      if f.EventFrame? && !StreamOnly(f.event) then
        cursor < |log| && f.event == log[cursor] && Gapless(sub, Popped(c), log, cursor + 1)
      else Gapless(sub, Popped(c), log, cursor)
  {
    DurableFramesTail(c.flight);
    var f := c.flight[0];
    if f.EventFrame? && !StreamOnly(f.event) {
      assert Sent(c)[0] == f.event && Sent(c)[1..] == Sent(Popped(c));
      AtRest(Sent(c), log, cursor);
    } else {
      assert Sent(Popped(c)) == Sent(c);
    }
  }

  lemma DeliverStale(cfg: Config, sub: Subscription, w: World, s: nat)
    requires Inv(cfg, sub, w) && s in w.conns && w.conns[s].flight != [] && w.client.ws != Some(s)
    ensures Inv(cfg, sub, Act(cfg, sub, w, Deliver(s)))
  {
    UpdateKeeps(cfg, sub, w, s, Popped(w.conns[s]));
    assert Act(cfg, sub, w, Deliver(s)) == Update(w, s, Popped(w.conns[s]));
  }

  lemma DeliverHealthy(cfg: Config, sub: Subscription, w: World, s: nat)
    requires Healthy(cfg, sub, w) && w.client.ws == Some(s) && Current(w).flight != []
    ensures Healthy(cfg, sub, Act(cfg, sub, w, Deliver(s)))
  {
    var c, client := Current(w), w.client;
    var f, next := c.flight[0], Act(cfg, sub, w, Deliver(s));
    PopSound(sub, c, |Log(w, sub)|, client.lastSeq, w.streamIds);
    StepKeepsOneDriver(cfg, client, Message(s, f));
    ReceiveHandles(cfg, client, s, f);
    if f.EventFrame? && !StreamOnly(f.event) {
      OrderlySnoc(Handled(client.calls), sub.conversationId, 0, client.lastSeq, f.event);
    }
    assert Log(next, sub) == Log(w, sub) && HasCurrent(next) && Current(next) == Popped(c);
  }

  lemma ReceiveHandles(cfg: Config, c: Client, s: nat, f: Frame)
    requires Listens(c, s)
    ensures var next := Receive(c, s, f);
      && next.ws == c.ws
      && Handled(next.calls) == Handled(c.calls) + (if f.EventFrame? && !StreamOnly(f.event) then [f.event] else [])
      && next.lastSeq == (if f.EventFrame? && f.event.number > c.lastSeq then f.event.number else c.lastSeq)
  {
    match f
    case EventFrame(e) => HandledSnoc(c.calls, OnEvent(e));
    case ProjectEvent(e) => HandledSnoc(c.calls, OnProjectEvent(e));
    case ProjectSession(e) => HandledSnoc(c.calls, OnProjectSessionEvent(e));
    case Replayed(n) => HandledSnoc(c.calls, OnReplayed(n));
  }

  /** The transcript takes every handled event; other frames do not reach it. */
  lemma AbsorbMeans(c: Client, s: nat, f: Frame, t: T.State)
    requires Listens(c, s)
    ensures Absorb(t, c, Receive(c, s, f)) == if f.EventFrame? then T.Reduce(t, f.event) else t
  {
  }

  /** The client's side of a delivery: what it has handled is still all of the log up to its cursor. */
  lemma {:induction false} DeliverHandles(cfg: Config, sub: Subscription, w: World, s: nat)
    requires Healthy(cfg, sub, w) && w.client.ws == Some(s) && Current(w).flight != []
    requires Gapless(sub, Current(w), Log(w, sub), w.client.lastSeq)
    requires |Handled(w.client.calls)| == w.client.lastSeq && At(Handled(w.client.calls), Log(w, sub), 0)
    ensures var next := Receive(w.client, s, Current(w).flight[0]);
      && |Handled(next.calls)| == next.lastSeq && At(Handled(next.calls), Log(w, sub), 0)
      && Gapless(sub, Popped(Current(w)), Log(w, sub), next.lastSeq)
  {
    var c, client, log := Current(w), w.client, Log(w, sub);
    var f := c.flight[0];
    PopSound(sub, c, |log|, client.lastSeq, w.streamIds);
    PopGapless(sub, c, log, client.lastSeq);
    ReceiveHandles(cfg, client, s, f);
    if f.EventFrame? && !StreamOnly(f.event) {
      AtSnoc(Handled(client.calls), log, 0, f.event);
    }
  }

  /** And the transcript's side. */
  lemma {:induction false} DeliverShows(cfg: Config, sub: Subscription, w: World, s: nat)
    requires Healthy(cfg, sub, w) && Complete(sub, w) && w.client.ws == Some(s) && Current(w).flight != []
    ensures var client := Receive(w.client, s, Current(w).flight[0]);
      var shown := Absorb(w.transcript, w.client, client);
      && client.lastSeq <= shown.lastSeq && T.Reflects(shown, Log(w, sub), shown.lastSeq)
      && shown.seen <= w.storedIds + w.streamIds && w.transcript.lastSeq <= shown.lastSeq
  {
    var c, client, log := Current(w), w.client, Log(w, sub);
    var f := c.flight[0];
    PopSound(sub, c, |log|, client.lastSeq, w.streamIds);
    PopGapless(sub, c, log, client.lastSeq);
    ReceiveHandles(cfg, client, s, f);
    AbsorbMeans(client, s, f, w.transcript);
    TranscriptFollows(sub, w, f);
  }

  lemma {:induction false} DeliverComplete(cfg: Config, sub: Subscription, w: World, s: nat)
    requires Healthy(cfg, sub, w) && Complete(sub, w) && w.client.ws == Some(s) && Current(w).flight != []
    ensures Complete(sub, Act(cfg, sub, w, Deliver(s)))
  {
    var next := Act(cfg, sub, w, Deliver(s));
    DeliverHandles(cfg, sub, w, s);
    DeliverShows(cfg, sub, w, s);
    RepliesStay(w.replies, Log(w, sub), w.transcript.lastSeq, next.transcript.lastSeq);
    assert Log(next, sub) == Log(w, sub);
    assert HasCurrent(next) ==> Current(next) == Popped(Current(w));
  }

  /** The transcript after one frame: the log's next event, an earlier one again, or a stream-only one. */
  lemma TranscriptFollows(sub: Subscription, w: World, f: Frame)
    requires LogOk(w, sub) && w.client.lastSeq <= w.transcript.lastSeq
    requires T.Reflects(w.transcript, Log(w, sub), w.transcript.lastSeq)
    requires w.transcript.seen <= w.storedIds + w.streamIds
    requires f.EventFrame? && !StreamOnly(f.event) ==>
      w.client.lastSeq < |Log(w, sub)| && f.event == Log(w, sub)[w.client.lastSeq]
    requires f.EventFrame? && StreamOnly(f.event) ==> f.event.number == 0 && f.event.id in w.streamIds
    ensures var next := if f.EventFrame? then T.Reduce(w.transcript, f.event) else w.transcript;
      && T.Reflects(next, Log(w, sub), next.lastSeq) && next.seen <= w.storedIds + w.streamIds
      && w.transcript.lastSeq <= next.lastSeq
      && (f.EventFrame? && !StreamOnly(f.event) ==> f.event.number <= next.lastSeq)
  {
    var log, shown := Log(w, sub), w.transcript.lastSeq;
    if f.EventFrame? {
      var e := f.event;
      if StreamOnly(e) {
        T.ReflectsStream(w.transcript, log, shown, e);
      } else if w.client.lastSeq == shown {
        T.ReflectsNext(w.transcript, log, shown, sub.conversationId);
      }
    }
  }

  lemma DeliverKeeps(cfg: Config, sub: Subscription, w: World, s: nat)
    requires Inv(cfg, sub, w)
    ensures Inv(cfg, sub, Act(cfg, sub, w, Deliver(s)))
  {
    if s in w.conns && w.conns[s].flight != [] {
      if w.client.ws != Some(s) {
        DeliverStale(cfg, sub, w, s);
      } else {
        DeliverHealthy(cfg, sub, w, s);
        if w.caughtUp {
          DeliverComplete(cfg, sub, w, s);
        }
      }
    }
  }

  lemma {:induction false} ActKeeps(cfg: Config, sub: Subscription, w: World, a: Action)
    requires Inv(cfg, sub, w)
    ensures Inv(cfg, sub, Act(cfg, sub, w, a))
  {
    match a
    case Append(e, slow) => AppendKeeps(cfg, sub, w, e, slow);
    case Emit(e, slow) => EmitKeeps(cfg, sub, w, e, slow);
    case ReadBacklog(s) => ReadBacklogKeeps(cfg, sub, w, s);
    case Deliver(s) => DeliverKeeps(cfg, sub, w, s);
    case ClientInput(input) => ClientInputKeeps(cfg, sub, w, input);
    case HttpAsk => HttpAskKeeps(cfg, sub, w);
    case HttpReply(i) => HttpReplyKeeps(cfg, sub, w, i);
    case _ => ServerActionKeeps(cfg, sub, w, a);
  }

  lemma {:induction false} RunKeeps(cfg: Config, sub: Subscription, w: World, actions: seq<Action>)
    requires Inv(cfg, sub, w)
    ensures Inv(cfg, sub, Run(cfg, sub, w, actions))
    decreases |actions|
  {
    if actions != [] {
      ActKeeps(cfg, sub, w, actions[0]);
      RunKeeps(cfg, sub, Act(cfg, sub, w, actions[0]), actions[1..]);
    }
  }

  // ---- the results ----

  predicate WellKept(log: seq<Event>, ids: set<string>, conversationId: string) {
    var mine := ConversationLog(log, conversationId);
    Numbered(mine, conversationId) && T.DistinctIds(mine) && forall i | 0 <= i < |mine| :: mine[i].id in ids
  }

  lemma {:induction false} OpeningOk(cfg: Config, sub: Subscription, log: seq<Event>, ids: set<string>, made: bool)
    requires WellKept(log, ids, sub.conversationId)
    ensures Inv(cfg, sub, Opening(cfg, log, ids, made))
  {
    var w := Opening(cfg, log, ids, made);
    ConnectTellsNothing(cfg, Fresh(0), made);
    DialIsSound(sub, ConversationLog(log, sub.conversationId), 0, {});
    assert Healthy(cfg, sub, w);
  }

  /**
   * Every interleaving of appends, stream events, replay, buffering, congestion, lost and superseded
   * sockets, retries, and HTTP answers, from any log: the durable events the client handles have
   * strictly increasing numbers over its whole life, none beyond its cursor.
   */
  lemma HandledNumbersIncrease(
    cfg: Config, sub: Subscription, log: seq<Event>, ids: set<string>, made: bool, actions: seq<Action>)
    requires WellKept(log, ids, sub.conversationId)
    ensures var w := Run(cfg, sub, Opening(cfg, log, ids, made), actions);
      && Orderly(Handled(w.client.calls), sub.conversationId, 0, w.client.lastSeq)
      && w.client.lastSeq <= |Log(w, sub)|
  {
    OpeningOk(cfg, sub, log, ids, made);
    RunKeeps(cfg, sub, Opening(cfg, log, ids, made), actions);
  }

  /**
   * And while no connection the client used found a backlog beyond the replay bound, nothing is
   * missing: it handled exactly the log up to its cursor, each event once and in order, and the
   * transcript shows exactly the messages of the log up to the number it has reached.
   */
  lemma NothingIsMissing(
    cfg: Config, sub: Subscription, log: seq<Event>, ids: set<string>, made: bool, actions: seq<Action>)
    requires WellKept(log, ids, sub.conversationId)
    ensures var w := Run(cfg, sub, Opening(cfg, log, ids, made), actions);
      w.caughtUp ==>
        && w.client.lastSeq <= w.transcript.lastSeq <= |Log(w, sub)|
        && Handled(w.client.calls) == Log(w, sub)[..w.client.lastSeq]
        && w.transcript.messages == T.MessagesOf(Log(w, sub)[..w.transcript.lastSeq])
  {
    OpeningOk(cfg, sub, log, ids, made);
    RunKeeps(cfg, sub, Opening(cfg, log, ids, made), actions);
  }

  lemma InvOfRun(cfg: Config, sub: Subscription, log: seq<Event>, ids: set<string>, made: bool, actions: seq<Action>)
    requires WellKept(log, ids, sub.conversationId)
    ensures var w := Run(cfg, sub, Opening(cfg, log, ids, made), actions);
      w.caughtUp && HasCurrent(w) ==> Gapless(sub, Current(w), Log(w, sub), w.client.lastSeq)
  {
    OpeningOk(cfg, sub, log, ids, made);
    RunKeeps(cfg, sub, Opening(cfg, log, ids, made), actions);
  }

  /** In particular a live connection with nothing left in flight has brought the client all of the log. */
  lemma QuietIsUpToDate(
    cfg: Config, sub: Subscription, log: seq<Event>, ids: set<string>, made: bool, actions: seq<Action>)
    requires WellKept(log, ids, sub.conversationId)
    ensures var w := Run(cfg, sub, Opening(cfg, log, ids, made), actions);
      w.caughtUp && HasCurrent(w) && Current(w).stage == Live && !Current(w).terminated && Current(w).flight == [] ==>
        && Handled(w.client.calls) == Log(w, sub)
        && w.transcript.messages == T.MessagesOf(Log(w, sub))
  {
    var w := Run(cfg, sub, Opening(cfg, log, ids, made), actions);
    InvOfRun(cfg, sub, log, ids, made, actions);
    NothingIsMissing(cfg, sub, log, ids, made, actions);
    if w.caughtUp && HasCurrent(w) && Current(w).stage == Live && !Current(w).terminated && Current(w).flight == [] {
      QuietConnection(sub, Current(w), Log(w, sub), w.client.lastSeq);
    }
  }

  lemma QuietConnection(sub: Subscription, c: Conn, log: seq<Event>, cursor: nat)
    requires Gapless(sub, c, log, cursor) && c.stage == Live && !c.terminated && c.flight == []
    ensures cursor == |log| && log[..cursor] == log
  {
  }
}
