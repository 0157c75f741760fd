/** Events, the append-only log, and the frames a live socket carries. */
module Events {
  import opened Order

  datatype Kind = UserMessage | AgentMessage | SystemMessage | ModelDelta | LanePane | OtherEvent

  /** `number` is the per-conversation `seq`; `domain` says whether the type is one of the project's domain changes. */
  datatype Event = Event(
    id: string,
    conversationId: string,
    projectId: string,
    number: nat,
    kind: Kind,
    text: string,
    domain: bool)

  datatype Frame =
    | EventFrame(event: Event)
    | ProjectEvent(event: Event)
    | ProjectSession(event: Event)
    | Replayed(sinceSeq: nat)

  /** Emitted on the live stream and never stored; such events are sealed with number 0. */
  predicate StreamOnly(e: Event) {
    e.kind == ModelDelta || e.kind == LanePane
  }

  /** The part of the log that belongs to one conversation. */
  function ConversationLog(log: seq<Event>, conversationId: string): seq<Event> {
    if log == [] then []
    else
      var before := ConversationLog(log[..|log| - 1], conversationId);
      var e := log[|log| - 1];
      if e.conversationId == conversationId then before + [e] else before
  }

  /** The sequence number the store gives the next event of a conversation. */
  function Seal(log: seq<Event>, e: Event): Event {
    e.(number := |ConversationLog(log, e.conversationId)| + 1)
  }

  /** A conversation's log as the store keeps it: durable events numbered 1, 2, 3, … */
  predicate Numbered(log: seq<Event>, conversationId: string) {
    forall i | 0 <= i < |log| ::
      log[i].number == i + 1 && log[i].conversationId == conversationId && !StreamOnly(log[i])
  }

  /** `listEvents`: what a conversation has beyond a sequence number, oldest first. */
  function EventsAfter(log: seq<Event>, sinceSeq: nat): (r: seq<Event>)
    ensures sinceSeq <= |log| ==> r == log[sinceSeq..]
  {
    if sinceSeq <= |log| then log[sinceSeq..] else []
  }

  lemma ConversationLogAppend(log: seq<Event>, e: Event, conversationId: string)
    ensures ConversationLog(log + [e], conversationId) ==
      ConversationLog(log, conversationId) + (if e.conversationId == conversationId then [e] else [])
  {
    assert (log + [e])[..|log|] == log;
  }
}
