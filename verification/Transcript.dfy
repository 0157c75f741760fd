/**
 * The transcript reducer (apps/web/src/live-transcript.ts) against the plain reading of a log
 * (apps/web/src/lib.ts:40-50).
 */
module Transcript {
  import opened Order
  import opened Events

  datatype Role = User | Agent | System
  datatype Message = Message(id: string, role: Role, text: string, pending: bool)

  datatype State = State(seen: set<string>, messages: seq<Message>, draft: Option<string>, lastSeq: nat)

  const DRAFT_ID := "__draft__"

  function Empty(): State { State({}, [], None, 0) }

  function RoleOf(kind: Kind): Option<Role> {
    match kind
    case UserMessage => Some(User)
    case AgentMessage => Some(Agent)
    case SystemMessage => Some(System)
    case _ => None
  }

  function Reduce(s: State, ev: Event): State {
    if ev.id != "" && ev.id in s.seen then s
    else
      var lastSeq := if ev.number > s.lastSeq then ev.number else s.lastSeq;
      var seen := if ev.id != "" then s.seen + {ev.id} else s.seen;
      if ev.kind == ModelDelta then
        State(seen, s.messages, Some((if s.draft.Some? then s.draft.value else "") + ev.text), lastSeq)
      else
        match RoleOf(ev.kind)
        case Some(role) =>
          var draft := if role == Agent then None else s.draft;
          State(seen, s.messages + [Message(ev.id, role, ev.text, false)], draft, lastSeq)
        case None => State(seen, s.messages, s.draft, lastSeq)
  }

  function Fold(s: State, events: seq<Event>): State
    decreases |events|
  {
    if events == [] then s else Fold(Reduce(s, events[0]), events[1..])
  }

  method FoldEvents(s: State, events: seq<Event>) returns (next: State)
    ensures next == Fold(s, events)
  {
    next := s;
    for i := 0 to |events|
      invariant Fold(s, events) == Fold(next, events[i..])
    {
      next := Reduce(next, events[i]);
      assert events[i..][1..] == events[i + 1..];
    }
  }

  /** What is rendered: the committed messages and, while a draft is in flight, one pending bubble. */
  function Rendered(s: State): seq<Message> {
    if !Truthy(s.draft) then s.messages
    else s.messages + [Message(DRAFT_ID, Agent, s.draft.value, true)]
  }

  /** The messages a log says, read from front to back. */
  function MessagesOf(events: seq<Event>): seq<Message> {
    if events == [] then []
    else
      var ev, before := events[|events| - 1], MessagesOf(events[..|events| - 1]);
      match RoleOf(ev.kind)
      case Some(role) => before + [Message(ev.id, role, ev.text, false)]
      case None => before
  }

  method MessagesFromEvents(events: seq<Event>) returns (out: seq<Message>)
    ensures out == MessagesOf(events)
  {
    out := [];
    for i := 0 to |events|
      invariant out == MessagesOf(events[..i])
    {
      assert events[..i + 1][..i] == events[..i];
      var role := RoleOf(events[i].kind);
      if role.Some? {
        out := out + [Message(events[i].id, role.value, events[i].text, false)];
      }
    }
    assert events[..|events|] == events;
  }

  lemma {:induction false} FoldSnoc(s: State, events: seq<Event>, ev: Event)
    ensures Fold(s, events + [ev]) == Reduce(Fold(s, events), ev)
    decreases |events|
  {
    if events == [] {
      assert [ev][1..] == [];
    } else {
      assert (events + [ev])[1..] == events[1..] + [ev];
      FoldSnoc(Reduce(s, events[0]), events[1..], ev);
    }
  }

  // ---- any delivery is its first-seen events ----

  predicate Repeats(events: seq<Event>, i: nat)
    requires i < |events|
  {
    events[i].id != "" && exists j | 0 <= j < i :: events[j].id == events[i].id
  }

  /** The events of a delivery that arrive for the first time. */
  function FirstSeen(events: seq<Event>): seq<Event> {
    if events == [] then []
    else
      var n := |events| - 1;
      FirstSeen(events[..n]) + (if Repeats(events, n) then [] else [events[n]])
  }

  /** What follows the last message of the agent. */
  function SinceAgent(events: seq<Event>): seq<Event> {
    if events == [] then []
    else
      var n := |events| - 1;
      if events[n].kind == AgentMessage then [] else SinceAgent(events[..n]) + [events[n]]
  }

  function DeltaText(events: seq<Event>): string {
    if events == [] then ""
    else
      var n := |events| - 1;
      DeltaText(events[..n]) + (if events[n].kind == ModelDelta then events[n].text else "")
  }

  predicate HasDelta(events: seq<Event>) {
    exists e | e in events :: e.kind == ModelDelta
  }

  /** The draft a delivery leaves: the deltas since the agent last spoke, or none. */
  function DraftOf(events: seq<Event>): Option<string> {
    var tail := SinceAgent(events);
    if HasDelta(tail) then Some(DeltaText(tail)) else None
  }

  lemma HasDeltaSnoc(events: seq<Event>, ev: Event)
    ensures HasDelta(events + [ev]) <==> HasDelta(events) || ev.kind == ModelDelta
  {
    var longer := events + [ev];
    assert longer[|events|] == ev;
    forall e | e in events ensures e in longer {
    }
  }

  lemma DeltaTextSnoc(events: seq<Event>, ev: Event)
    ensures DeltaText(events + [ev]) == DeltaText(events) + (if ev.kind == ModelDelta then ev.text else "")
  {
    assert (events + [ev])[..|events|] == events;
  }

  lemma DraftOfSnoc(events: seq<Event>, ev: Event)
    ensures DraftOf(events + [ev]) ==
      if ev.kind == AgentMessage then None
      else if ev.kind == ModelDelta then Some((if DraftOf(events).Some? then DraftOf(events).value else "") + ev.text)
      else DraftOf(events)
  {
    var tail := SinceAgent(events);
    assert (events + [ev])[..|events|] == events;
    if ev.kind != AgentMessage {
      assert SinceAgent(events + [ev]) == tail + [ev];
      HasDeltaSnoc(tail, ev);
      DeltaTextSnoc(tail, ev);
      assert DeltaText(tail) + "" == DeltaText(tail) && "" + ev.text == ev.text;
      if !HasDelta(tail) {
        NoDeltaNoText(tail);
      }
    }
  }

  lemma {:induction false} NoDeltaNoText(events: seq<Event>)
    requires !HasDelta(events)
    ensures DeltaText(events) == ""
  {
    if events != [] {
      var n := |events| - 1;
      assert events[n] in events;
      assert forall e | e in events[..n] :: e in events;
      NoDeltaNoText(events[..n]);
    }
  }

  function Ids(events: seq<Event>): set<string> {
    set e | e in events && e.id != "" :: e.id
  }

  /**
   * Whatever the live socket and the HTTP fallback deliver, in whatever order and however often:
   * the transcript shows the messages and the draft of the first-seen events.
   */
  lemma {:induction false} FoldIsFirstSeen(events: seq<Event>)
    ensures var s := Fold(Empty(), events);
      && s.messages == MessagesOf(FirstSeen(events))
      && s.draft == DraftOf(FirstSeen(events))
      && s.seen == Ids(events)
  {
    if events != [] {
      var n := |events| - 1;
      var before, ev := events[..n], events[n];
      FoldIsFirstSeen(before);
      assert events == before + [ev];
      FoldSnoc(Empty(), before, ev);
      FirstSeenStep(Fold(Empty(), before), before, ev);
    }
  }

  predicate Spoken(ev: Event) {
    ev.kind == UserMessage || ev.kind == AgentMessage || ev.kind == SystemMessage
  }

  function AllSpoken(events: seq<Event>): seq<Event> {
    if events == [] then []
    else
      var before, ev := AllSpoken(events[..|events| - 1]), events[|events| - 1];
      if Spoken(ev) then before + [ev] else before
  }

  /** A message says who spoke, under the event's id, with its text, and is committed. */
  predicate Says(m: Message, ev: Event) {
    && m.id == ev.id && m.text == ev.text && !m.pending
    && (m.role == User <==> ev.kind == UserMessage)
    && (m.role == Agent <==> ev.kind == AgentMessage)
    && (m.role == System <==> ev.kind == SystemMessage)
  }

  /** There is one message for each event in which somebody spoke, in their order, and no other. */
  lemma {:induction false} MessagesAreSpoken(events: seq<Event>)
    ensures |MessagesOf(events)| == |AllSpoken(events)|
    ensures forall i | 0 <= i < |AllSpoken(events)| :: Says(MessagesOf(events)[i], AllSpoken(events)[i])
  {
    if events != [] {
      MessagesAreSpoken(events[..|events| - 1]);
    }
  }

  predicate Highest(events: seq<Event>, n: nat) {
    && (forall e | e in events :: e.number <= n)
    && (n == 0 || exists e | e in events :: e.number == n)
  }

  lemma HighestSnoc(events: seq<Event>, n: nat, ev: Event)
    requires Highest(events, n)
    ensures Highest(events + [ev], if ev.number > n then ev.number else n)
  {
    var longer := events + [ev];
    assert forall e :: e in longer <==> e in events || e == ev;
  }

  lemma HighestStep(s: State, before: seq<Event>, ev: Event)
    requires Highest(FirstSeen(before), s.lastSeq) && s.seen == Ids(before)
    ensures Highest(FirstSeen(before + [ev]), Reduce(s, ev).lastSeq)
  {
    NoEmptyId(before);
    FirstSeenSnoc(before, ev);
    if ev.id in Ids(before) {
      assert FirstSeen(before) + [] == FirstSeen(before);
    } else {
      HighestSnoc(FirstSeen(before), s.lastSeq, ev);
      ReduceCounts(s, ev);
    }
  }

  lemma ReduceCounts(s: State, ev: Event)
    requires ev.id !in s.seen
    ensures Reduce(s, ev).lastSeq == if ev.number > s.lastSeq then ev.number else s.lastSeq
  {
  }

  /** The cursor is the highest number among the first-seen events, or 0. */
  lemma {:induction false} CursorIsHighest(events: seq<Event>)
    ensures Highest(FirstSeen(events), Fold(Empty(), events).lastSeq)
  {
    if events != [] {
      var before, ev := events[..|events| - 1], events[|events| - 1];
      CursorIsHighest(before);
      FoldIsFirstSeen(before);
      assert events == before + [ev];
      FoldSnoc(Empty(), before, ev);
      HighestStep(Fold(Empty(), before), before, ev);
    }
  }

  /** Messages read from a log are committed. */
  lemma {:induction false} CommittedMessages(events: seq<Event>, i: nat)
    requires i < |MessagesOf(events)|
    ensures !MessagesOf(events)[i].pending
  {
    var n := |events| - 1;
    if i < |MessagesOf(events[..n])| {
      CommittedMessages(events[..n], i);
    }
  }

  /**
   * What is rendered after any deliveries: the messages of the first-seen events, and behind them, exactly while
   * the agent's deltas since it last spoke make a text, one pending bubble of the agent with that text.
   */
  lemma {:induction false} RenderedExactly(events: seq<Event>)
    ensures var shown, first := Rendered(Fold(Empty(), events)), FirstSeen(events);
      && |shown| == |MessagesOf(first)| + (if Truthy(DraftOf(first)) then 1 else 0)
      && shown[..|MessagesOf(first)|] == MessagesOf(first)
      && (forall i | 0 <= i < |shown| :: shown[i].pending <==> i == |MessagesOf(first)|)
      && (Truthy(DraftOf(first)) ==> shown[|shown| - 1] == Message(DRAFT_ID, Agent, DraftOf(first).value, true))
  {
    FoldIsFirstSeen(events);
    var committed := MessagesOf(FirstSeen(events));
    forall i | 0 <= i < |committed| ensures !committed[i].pending {
      CommittedMessages(FirstSeen(events), i);
    }
  }

  lemma {:induction false} FirstSeenStep(s: State, before: seq<Event>, ev: Event)
    requires s.messages == MessagesOf(FirstSeen(before)) && s.draft == DraftOf(FirstSeen(before))
    requires s.seen == Ids(before)
    ensures var next, events := Reduce(s, ev), before + [ev];
      && next.messages == MessagesOf(FirstSeen(events))
      && next.draft == DraftOf(FirstSeen(events))
      && next.seen == Ids(events)
  {
    var first := FirstSeen(before);
    IdsSnoc(before, ev);
    FirstSeenSnoc(before, ev);
    NoEmptyId(before);
    if ev.id in Ids(before) {
      assert first + [] == first;
      assert Ids(before) + {ev.id} == Ids(before);
    } else {
      ReduceNew(s, first, ev);
    }
  }

  lemma NoEmptyId(events: seq<Event>)
    ensures "" !in Ids(events)
  {
  }

  lemma {:induction false} ReduceNew(s: State, first: seq<Event>, ev: Event)
    requires s.messages == MessagesOf(first) && s.draft == DraftOf(first) && ev.id !in s.seen
    ensures var next := Reduce(s, ev);
      && next.messages == MessagesOf(first + [ev]) && next.draft == DraftOf(first + [ev])
      && next.seen == s.seen + (if ev.id != "" then {ev.id} else {})
  {
    MessagesOfSnoc(first, ev);
    DraftOfSnoc(first, ev);
    ReduceParts(s, ev);
    if RoleOf(ev.kind) == None {
      assert MessagesOf(first) + [] == MessagesOf(first);
    }
  }

  /** An event not seen before, part by part. */
  lemma {:induction false} ReduceParts(s: State, ev: Event)
    requires ev.id !in s.seen
    ensures var next := Reduce(s, ev);
      && next.messages ==
         (if RoleOf(ev.kind).Some? then s.messages + [Message(ev.id, RoleOf(ev.kind).value, ev.text, false)]
          else s.messages)
      && next.draft == (if ev.kind == AgentMessage then None
                        else if ev.kind == ModelDelta then Some((if s.draft.Some? then s.draft.value else "") + ev.text)
                        else s.draft)
      && next.seen == s.seen + (if ev.id != "" then {ev.id} else {})
  {
  }

  lemma IdsSnoc(events: seq<Event>, ev: Event)
    ensures Ids(events + [ev]) == Ids(events) + (if ev.id != "" then {ev.id} else {})
  {
    assert forall e :: e in events + [ev] <==> e in events || e == ev;
  }

  lemma FirstSeenSnoc(events: seq<Event>, ev: Event)
    ensures FirstSeen(events + [ev]) == FirstSeen(events) + (if ev.id in Ids(events) then [] else [ev])
  {
    var longer, n := events + [ev], |events|;
    assert longer[..n] == events;
    if ev.id in Ids(events) {
      var e :| e in events && e.id != "" && e.id == ev.id;
      var j :| 0 <= j < |events| && events[j] == e;
      assert longer[j].id == ev.id;
    }
    assert Repeats(longer, n) <==> ev.id in Ids(events);
  }

  lemma MessagesOfSnoc(events: seq<Event>, ev: Event)
    ensures MessagesOf(events + [ev]) == MessagesOf(events) +
      if RoleOf(ev.kind).Some? then [Message(ev.id, RoleOf(ev.kind).value, ev.text, false)] else []
  {
    assert (events + [ev])[..|events|] == events;
  }

  /** Delivering again what was delivered before changes nothing. */
  lemma {:induction false} RedeliveryIsNoOp(s: State, events: seq<Event>)
    requires forall e | e in events :: e.id != "" && e.id in s.seen
    ensures Fold(s, events) == s
  {
    if events != [] {
      RedeliveryIsNoOp(s, events[1..]);
    }
  }

  // ---- the transcript of a log prefix ----

  predicate DistinctIds(log: seq<Event>) {
    && (forall i | 0 <= i < |log| :: log[i].id != "")
    && (forall i, j | 0 <= i < j < |log| :: log[i].id != log[j].id)
  }

  /** The transcript says exactly the first `n` events of the log, and can still take the others. */
  predicate Reflects(s: State, log: seq<Event>, n: nat) {
    && n <= |log|
    && s.messages == MessagesOf(log[..n])
    && s.lastSeq == n
    && (forall i | 0 <= i < |log| :: log[i].id in s.seen <==> i < n)
  }

  lemma ReflectsNext(s: State, log: seq<Event>, n: nat, conversationId: string)
    requires Numbered(log, conversationId) && DistinctIds(log) && Reflects(s, log, n) && n < |log|
    ensures Reflects(Reduce(s, log[n]), log, n + 1)
  {
    assert log[..n + 1][..n] == log[..n];
  }

  /** A stretch of the log that starts inside the prefix already shown extends it, or changes nothing. */
  lemma {:induction false} ReflectsBatch(s: State, log: seq<Event>, n: nat, a: nat, b: nat, conversationId: string)
    requires Numbered(log, conversationId) && DistinctIds(log) && Reflects(s, log, n)
    requires a <= n && a <= b <= |log|
    ensures Reflects(Fold(s, log[a..b]), log, if b > n then b else n)
    decreases b - a
  {
    if a < b {
      assert log[a..b][0] == log[a] && log[a..b][1..] == log[a + 1..b];
      if a < n {
        assert Reduce(s, log[a]) == s;
        ReflectsBatch(s, log, n, a + 1, b, conversationId);
      } else {
        ReflectsNext(s, log, n, conversationId);
        ReflectsBatch(Reduce(s, log[a]), log, n + 1, a + 1, b, conversationId);
      }
    }
  }

  /** A stream-only event never touches the committed messages. */
  lemma ReflectsStream(s: State, log: seq<Event>, n: nat, ev: Event)
    requires Reflects(s, log, n) && StreamOnly(ev) && ev.number == 0
    requires forall i | 0 <= i < |log| :: log[i].id != ev.id
    ensures Reflects(Reduce(s, ev), log, n)
  {
  }

  /** A prefix stays shown while the log grows by events that are new. */
  lemma ReflectsGrowth(s: State, log: seq<Event>, n: nat, ev: Event)
    requires Reflects(s, log, n) && ev.id !in s.seen
    ensures Reflects(s, log + [ev], n)
  {
    assert (log + [ev])[..n] == log[..n];
  }
}
