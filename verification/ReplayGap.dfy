/** What a client loses when its connection replayed the first 1000 of a longer backlog and then went live. */
module ReplayGap {
  import opened Order
  import opened Events
  import opened EventServer
  import opened StreamClient
  import opened LiveDelivery

  function Delivers(s: nat, n: nat): seq<Action> {
    if n == 0 then [] else [Deliver(s)] + Delivers(s, n - 1)
  }

  lemma {:induction false} DeliverOne(cfg: Config, sub: Subscription, w: World, s: nat)
    requires Healthy(cfg, sub, w) && w.client.ws == Some(s) && Current(w).flight != []
    ensures var next := Act(cfg, sub, w, Deliver(s));
      && Healthy(cfg, sub, next) && next.client.ws == Some(s) && Current(next) == Popped(Current(w))
      && Log(next, sub) == Log(w, sub)
      && Handled(next.client.calls) + Sent(Popped(Current(w))) == Handled(w.client.calls) + Sent(Current(w))
  {
    var c, f := Current(w), Current(w).flight[0];
    DeliverHealthy(cfg, sub, w, s);
    ReceiveHandles(cfg, w.client, s, f);
    DurableFramesTail(c.flight);
    var one := if f.EventFrame? && !StreamOnly(f.event) then [f.event] else [];
    HandedOver(Handled(w.client.calls), Sent(Popped(c)), one);
  }

  lemma HandedOver(handled: seq<Event>, sent: seq<Event>, one: seq<Event>)
    ensures handled + one + sent == handled + (one + sent)
  {
  }

  /** Everything in flight on the current socket reaches the handlers. */
  lemma {:induction false} Drain(cfg: Config, sub: Subscription, w: World, s: nat)
    requires Healthy(cfg, sub, w) && w.client.ws == Some(s)
    ensures var later := LiveDelivery.Run(cfg, sub, w, Delivers(s, |Current(w).flight|));
      && Log(later, sub) == Log(w, sub)
      && Handled(later.client.calls) == Handled(w.client.calls) + Sent(Current(w))
    decreases |Current(w).flight|
  {
    var n := |Current(w).flight|;
    if n == 0 {
      assert Sent(Current(w)) == [];
    } else {
      DeliverOne(cfg, sub, w, s);
      Drain(cfg, sub, Act(cfg, sub, w, Deliver(s)), s);
      assert Delivers(s, n)[1..] == Delivers(s, n - 1);
    }
  }

  lemma {:induction false} OrderlyIsShort(evs: seq<Event>, conversationId: string, lo: nat, hi: nat)
    requires Orderly(evs, conversationId, lo, hi) && lo <= hi
    ensures |evs| <= hi - lo
  {
    if evs != [] {
      var n := |evs| - 1;
      OrderlyIsShort(evs[..n], conversationId, lo, evs[n].number - 1);
    }
  }

  /** The next event of the conversation at a live connection that is behind. */
  lemma {:induction false} AppendAtBehind(cfg: Config, sub: Subscription, w: World, s: nat, e: Event)
    requires Inv(cfg, sub, w) && w.client.ws == Some(s) && FreshId(w, e) && !StreamOnly(e)
    requires e.conversationId == sub.conversationId && Current(w).stage == Live && !Current(w).terminated
    requires Current(w).lastSeq < |Log(w, sub)|
    ensures var next, sealed := Act(cfg, sub, w, Append(e, {})), Seal(w.log, e);
      && Healthy(cfg, sub, next) && next.client == w.client
      && Log(next, sub) == Log(w, sub) + [sealed] && sealed.number == |Log(w, sub)| + 1
      && |Current(next).flight| == |Current(w).flight| + 1
      && Sent(Current(next)) == Sent(Current(w)) + [sealed]
  {
    AppendKeeps(cfg, sub, w, e, {});
    var c, sealed := Current(w), Seal(w.log, e);
    ConversationLogAppend(w.log, sealed, sub.conversationId);
    BehindMeansSkipping(sub, c, Log(w, sub), sealed);
    DurableFramesSnoc(c.flight, EventFrame(sealed));
  }

  /** The client's handlers have been told something other than the log from its beginning. */
  ghost predicate HasLost(sub: Subscription, w: World) { !(Handled(w.client.calls) <= Log(w, sub)) }

  /**
   * In any reachable world whose current connection is live but behind the log, the next event of the
   * conversation makes the client lose what lies between: once all in flight has arrived, what it has handled
   * is not the log from its beginning.
   */
  lemma {:induction false} BehindLosesEvents(cfg: Config, sub: Subscription, w: World, e: Event)
    requires Inv(cfg, sub, w) && HasCurrent(w) && Current(w).stage == Live && !Current(w).terminated
    requires Current(w).lastSeq < |Log(w, sub)|
    requires FreshId(w, e) && !StreamOnly(e) && e.conversationId == sub.conversationId
    ensures var s := w.client.ws.value;
      HasLost(sub, LiveDelivery.Run(cfg, sub, w, [Append(e, {})] + Delivers(s, |Current(w).flight| + 1)))
  {
    var s, c, log, handled := w.client.ws.value, Current(w), Log(w, sub), Handled(w.client.calls);
    var next, sealed := Act(cfg, sub, w, Append(e, {})), Seal(w.log, e);
    AppendAtBehind(cfg, sub, w, s, e);
    Drain(cfg, sub, next, s);
    var rest := Delivers(s, |c.flight| + 1);
    assert ([Append(e, {})] + rest)[1..] == rest;
    OrderlyIsShort(handled, sub.conversationId, 0, w.client.lastSeq);
    OrderlyIsShort(Sent(c), sub.conversationId, w.client.lastSeq, c.lastSeq);
    ShortIsNotPrefix(handled + Sent(c), log, sealed);
  }

  lemma ShortIsNotPrefix(evs: seq<Event>, log: seq<Event>, e: Event)
    requires |evs| < |log| && e.number == |log| + 1 && forall i | 0 <= i < |log| :: log[i].number == i + 1
    ensures !(evs + [e] <= log + [e])
  {
    assert (evs + [e])[|evs|] == e && (log + [e])[|evs|] == log[|evs|];
  }

  lemma {:induction false} ActGrows(cfg: Config, sub: Subscription, w: World, a: Action)
    requires Inv(cfg, sub, w)
    ensures Handled(w.client.calls) <= Handled(Act(cfg, sub, w, a).client.calls)
    ensures Log(w, sub) <= Log(Act(cfg, sub, w, a), sub)
  {
    match a
    case Append(e, _) => ConversationLogAppend(w.log, Seal(w.log, e), sub.conversationId);
    case Deliver(s) => DeliverGrows(cfg, sub, w, s);
    case ClientInput(input) => InputGrows(cfg, sub, w, input);
    case _ => assert Act(cfg, sub, w, a).client == w.client && Act(cfg, sub, w, a).log == w.log;
  }

  lemma {:induction false} DeliverGrows(cfg: Config, sub: Subscription, w: World, s: nat)
    ensures var next := Act(cfg, sub, w, Deliver(s));
      Handled(w.client.calls) <= Handled(next.client.calls) && next.log == w.log
  {
    if s in w.conns && w.conns[s].flight != [] && Listens(w.client, s) {
      ReceiveHandles(cfg, w.client, s, w.conns[s].flight[0]);
    }
  }

  lemma {:induction false} InputGrows(cfg: Config, sub: Subscription, w: World, input: Input)
    requires OneDriver(cfg, w.client)
    ensures var next := Act(cfg, sub, w, ClientInput(input));
      Handled(w.client.calls) <= Handled(next.client.calls) && next.log == w.log
  {
    if !input.Message? {
      InputTellsNothing(cfg, w.client, input);
    }
  }

  /** And for good: no reconnect and no replay ever brings it back to the handlers. */
  lemma {:induction false} LostForGood(cfg: Config, sub: Subscription, w: World, actions: seq<Action>)
    requires Inv(cfg, sub, w) && HasLost(sub, w)
    ensures HasLost(sub, LiveDelivery.Run(cfg, sub, w, actions))
    decreases |actions|
  {
    if actions != [] {
      var next := Act(cfg, sub, w, actions[0]);
      ActKeeps(cfg, sub, w, actions[0]);
      ActGrows(cfg, sub, w, actions[0]);
      OrderlyIsShort(Handled(w.client.calls), sub.conversationId, 0, w.client.lastSeq);
      if Handled(next.client.calls) <= Log(next, sub) {
        PrefixBack(Handled(w.client.calls), Handled(next.client.calls), Log(w, sub), Log(next, sub));
      }
      LostForGood(cfg, sub, next, actions[1..]);
    }
  }

  lemma PrefixBack(handled: seq<Event>, more: seq<Event>, log: seq<Event>, longer: seq<Event>)
    requires handled <= more && log <= longer && |handled| <= |log| && more <= longer
    ensures handled <= log
  {
  }
}
