/** The retries of the stream client over whole runs, and what its state handler is told (apps/web/src/stream.ts). */
module StreamRetries {
  import opened Order
  import opened Events
  import opened StreamClient

  // ---- failures ----

  /** The current socket is gone, or a socket could not be made when the pending timer fired. */
  predicate Fails(c: Client, input: Input) {
    || (input.Dropped? && c.ws == Some(input.socket))
    || (input.Fired? && input.timer in c.armed && !input.made)
  }

  /** The current socket opens, the network comes back to a waiting or given-up stream, or the user closes it. */
  predicate Resets(c: Client, input: Input) {
    || (input.Opened? && Listens(c, input.socket))
    || (input.Revived? && (c.state == GaveUp || c.state == Reconnecting))
    || input.UserClosed?
  }

  function Failures(cfg: Config, c: Client, inputs: seq<Input>): nat
    decreases |inputs|
  {
    if inputs == [] then 0
    else (if Fails(c, inputs[0]) then 1 else 0) + Failures(cfg, Step(cfg, c, inputs[0]), inputs[1..])
  }

  predicate Undisturbed(cfg: Config, c: Client, inputs: seq<Input>)
    decreases |inputs|
  {
    inputs == [] || (!Resets(c, inputs[0]) && Undisturbed(cfg, Step(cfg, c, inputs[0]), inputs[1..]))
  }

  predicate Trying(c: Client) { c.state == Connecting || c.state == Open || c.state == Reconnecting }

  lemma {:induction false} FailsOnceMore(cfg: Config, c: Client, input: Input)
    requires OneDriver(cfg, c) && Trying(c) && Fails(c, input)
    ensures var next := Step(cfg, c, input);
      && next.retries == (if c.retries < cfg.maxRetries then c.retries + 1 else c.retries)
      && next.state == (if c.retries < cfg.maxRetries then Reconnecting else GaveUp)
  {
  }

  lemma {:induction false} NothingSpent(cfg: Config, c: Client, input: Input)
    requires OneDriver(cfg, c) && !Fails(c, input) && !Resets(c, input)
    ensures var next := Step(cfg, c, input); next.retries == c.retries && (Trying(next) <==> Trying(c))
    ensures c.state == GaveUp ==> Step(cfg, c, input) == c
  {
  }

  lemma {:induction false} GaveUpStays(cfg: Config, c: Client, inputs: seq<Input>)
    requires OneDriver(cfg, c) && c.state == GaveUp && Undisturbed(cfg, c, inputs)
    ensures Run(cfg, c, inputs) == c && Failures(cfg, c, inputs) == 0
    decreases |inputs|
  {
    if inputs != [] {
      NothingSpent(cfg, c, inputs[0]);
      GaveUpStays(cfg, c, inputs[1..]);
    }
  }

  /**
   * From any state that is still trying, however many retries it has spent, over every run without an open, a
   * revival or a close: each failure spends one retry, and the stream has given up exactly when there was one
   * failure more than the budget held.
   */
  lemma {:induction false} BudgetIsSpentExactly(cfg: Config, c: Client, inputs: seq<Input>)
    requires OneDriver(cfg, c) && Trying(c) && Undisturbed(cfg, c, inputs)
    ensures var final, spent := Run(cfg, c, inputs), c.retries + Failures(cfg, c, inputs);
      && spent <= cfg.maxRetries + 1
      && (final.state == GaveUp <==> spent == cfg.maxRetries + 1)
      && (spent <= cfg.maxRetries ==> Trying(final) && final.retries == spent)
    decreases |inputs|
  {
    if inputs != [] {
      var next := Step(cfg, c, inputs[0]);
      StepKeepsOneDriver(cfg, c, inputs[0]);
      if Fails(c, inputs[0]) {
        FailsOnceMore(cfg, c, inputs[0]);
      } else {
        NothingSpent(cfg, c, inputs[0]);
      }
      if Trying(next) {
        BudgetIsSpentExactly(cfg, next, inputs[1..]);
      } else {
        GaveUpStays(cfg, next, inputs[1..]);
      }
    }
  }

  /**
   * An open of the current socket restores the whole budget, whatever had been spent: from then on it takes
   * `maxRetries` failures to be waiting for the last time, and one more to give up.
   */
  lemma {:induction false} OpenRestoresBudget(cfg: Config, c: Client, socket: nat, inputs: seq<Input>)
    requires OneDriver(cfg, c) && Listens(c, socket)
    requires Undisturbed(cfg, Step(cfg, c, Opened(socket)), inputs)
    ensures var open := Step(cfg, c, Opened(socket));
      var final, failures := Run(cfg, open, inputs), Failures(cfg, open, inputs);
      && open.state == Open && open.retries == 0
      && (final.state == GaveUp <==> failures == cfg.maxRetries + 1)
      && (failures <= cfg.maxRetries ==> final.retries == failures)
  {
    StepKeepsOneDriver(cfg, c, Opened(socket));
    BudgetIsSpentExactly(cfg, Step(cfg, c, Opened(socket)), inputs);
  }

  /**
   * So does the network's return, to a stream that waits or has given up; a socket that cannot be made then is
   * the first failure. Any other stream ignores it.
   */
  lemma {:induction false} RevivalRestoresBudget(cfg: Config, c: Client, made: bool)
    requires OneDriver(cfg, c)
    ensures var next := Step(cfg, c, Revived(made));
      if c.state != GaveUp && c.state != Reconnecting then next == c
      else if made then next.state == Connecting && next.ws == Some(c.socketsMade) && next.retries == 0
      else if cfg.maxRetries == 0 then next.state == GaveUp && next.armed == map[]
      else next.state == Reconnecting && next.retries == 1 && |next.armed| == 1
  {
    StepKeepsOneDriver(cfg, c, Revived(made));
    NothingLeft(c);
  }

  /** So with any budget at all, a drop right after an open is answered with the first delay. */
  lemma {:induction false} DropAfterOpenWaits(cfg: Config, c: Client, socket: nat)
    requires OneDriver(cfg, c) && Listens(c, socket) && cfg.maxRetries > 0
    ensures var dropped := Step(cfg, Step(cfg, c, Opened(socket)), Dropped(socket));
      && dropped.state == Reconnecting && dropped.timer.Some?
      && dropped.armed == map[dropped.timer.value := if cfg.backoff == [] then 1000 else cfg.backoff[0]]
  {
    var open := Step(cfg, c, Opened(socket));
    StepKeepsOneDriver(cfg, c, Opened(socket));
    assert open.armed == map[];
  }

  // ---- delays ----

  /** The delay before the n-th retry, from 1: by the schedule, its last entry repeating; a second without one. */
  predicate Scheduled(backoff: seq<int>, n: nat, delay: int) {
    if backoff == [] then delay == 1000
    else if n <= |backoff| then n >= 1 && delay == backoff[n - 1]
    else delay == backoff[|backoff| - 1]
  }

  ghost predicate WaitsAsScheduled(cfg: Config, c: Client) {
    c.state == Reconnecting ==>
      && c.retries >= 1 && c.timer.Some?
      && exists delay :: Scheduled(cfg.backoff, c.retries, delay) && c.armed == map[c.timer.value := delay]
  }

  lemma {:induction false} ScheduleWaits(cfg: Config, c: Client)
    requires c.armed == map[]
    ensures ScheduleReconnect(cfg, c).state == Reconnecting && !c.closed && c.retries < cfg.maxRetries ==>
      WaitsAsScheduled(cfg, ScheduleReconnect(cfg, c))
  {
    if !c.closed && c.retries < cfg.maxRetries {
      var delay := Delay(cfg.backoff, c.retries);
      assert Scheduled(cfg.backoff, c.retries + 1, delay);
      assert ScheduleReconnect(cfg, c).armed == map[c.timersMade := delay];
    }
  }

  lemma {:induction false} StepWaits(cfg: Config, c: Client, input: Input)
    requires OneDriver(cfg, c) && WaitsAsScheduled(cfg, c)
    ensures WaitsAsScheduled(cfg, Step(cfg, c, input))
  {
    StepKeepsOneDriver(cfg, c, input);
    match input
    case Dropped(s) =>
      if c.ws == Some(s) {
        ScheduleWaits(cfg, c.(ws := None));
      }
    case Fired(t, made) =>
      if t in c.armed && !made {
        assert c.armed - {t} == map[];
        ScheduleWaits(cfg, c.(armed := c.armed - {t}));
      }
    case Revived(made) =>
      NothingLeft(c);
      if !made {
        ScheduleWaits(cfg, ClearTimer(c).(retries := 0, timer := None));
      }
    case _ =>
  }

  /** In every reachable state a waiting stream waits for the delay of the retry it is at. */
  lemma {:induction false} RunsWaitAsScheduled(cfg: Config, c: Client, inputs: seq<Input>)
    requires OneDriver(cfg, c) && WaitsAsScheduled(cfg, c)
    ensures WaitsAsScheduled(cfg, Run(cfg, c, inputs))
    decreases |inputs|
  {
    if inputs != [] {
      StepKeepsOneDriver(cfg, c, inputs[0]);
      StepWaits(cfg, c, inputs[0]);
      RunsWaitAsScheduled(cfg, Step(cfg, c, inputs[0]), inputs[1..]);
    }
  }

  lemma {:induction false} EveryWaitIsScheduled(cfg: Config, sinceSeq: nat, made: bool, inputs: seq<Input>)
    ensures WaitsAsScheduled(cfg, Run(cfg, Started(cfg, sinceSeq, made), inputs))
  {
    RunsHaveOneDriver(cfg, sinceSeq, made, []);
    ScheduleWaits(cfg, Fresh(sinceSeq));
    RunsWaitAsScheduled(cfg, Started(cfg, sinceSeq, made), inputs);
  }

  // ---- what the state handler is told ----

  /** The states told, oldest first. */
  function StatesTold(calls: seq<Call>): seq<StreamState> {
    if calls == [] then []
    else
      var before, call := StatesTold(calls[..|calls| - 1]), calls[|calls| - 1];
      if call.OnState? then before + [call.state] else before
  }

  /** Starting from `connecting`, every state told is a change, and the last one is the state now. */
  predicate ToldTruly(c: Client) {
    var told := [Connecting] + StatesTold(c.calls);
    told[|told| - 1] == c.state && forall i | 0 < i < |told| :: told[i] != told[i - 1]
  }

  lemma {:induction false} StatesToldSnoc(calls: seq<Call>, call: Call)
    ensures StatesTold(calls + [call]) == StatesTold(calls) + if call.OnState? then [call.state] else []
  {
    assert (calls + [call])[..|calls|] == calls;
  }

  lemma {:induction false} SetStateTells(c: Client, s: StreamState)
    requires ToldTruly(c)
    ensures ToldTruly(SetState(c, s))
  {
    if c.state != s {
      StatesToldSnoc(c.calls, OnState(s));
      assert [Connecting] + (StatesTold(c.calls) + [s]) == [Connecting] + StatesTold(c.calls) + [s];
    }
  }

  /** A client that differs in nothing the handler is told of. */
  lemma {:induction false} TellsTheSame(c: Client, d: Client)
    requires ToldTruly(c) && d.calls == c.calls && d.state == c.state
    ensures ToldTruly(d)
  {
  }

  lemma {:induction false} ScheduleTells(cfg: Config, c: Client)
    requires ToldTruly(c)
    ensures ToldTruly(ScheduleReconnect(cfg, c))
  {
    if !c.closed {
      if c.retries >= cfg.maxRetries {
        SetStateTells(c, GaveUp);
      } else {
        TellsTheSame(c, c.(retries := c.retries + 1));
        SetStateTells(c.(retries := c.retries + 1), Reconnecting);
        TellsTheSame(SetState(c.(retries := c.retries + 1), Reconnecting), ScheduleReconnect(cfg, c));
      }
    }
  }

  lemma {:induction false} ConnectTells(cfg: Config, c: Client, made: bool)
    requires ToldTruly(c)
    ensures ToldTruly(Connect(cfg, c, made))
  {
    if !c.closed {
      if made {
        var dialing := c.(ws := Some(c.socketsMade), socketsMade := c.socketsMade + 1);
        TellsTheSame(c, dialing);
        SetStateTells(dialing, Connecting);
      } else {
        ScheduleTells(cfg, c);
      }
    }
  }

  lemma {:induction false} ReceiveTells(c: Client, socket: nat, frame: Frame)
    requires ToldTruly(c)
    ensures ToldTruly(Receive(c, socket, frame))
  {
    var next := Receive(c, socket, frame);
    if next.calls != c.calls {
      StatesToldSnoc(c.calls, next.calls[|c.calls|]);
      assert StatesTold(next.calls) == StatesTold(c.calls);
    }
  }

  lemma {:induction false} StepTells(cfg: Config, c: Client, input: Input)
    requires ToldTruly(c)
    ensures ToldTruly(Step(cfg, c, input))
  {
    match input
    case Opened(s) =>
      TellsTheSame(c, c.(retries := 0));
      SetStateTells(c.(retries := 0), Open);
    case Message(s, f) => ReceiveTells(c, s, f);
    case Dropped(s) =>
      TellsTheSame(c, c.(ws := None));
      ScheduleTells(cfg, c.(ws := None));
    case Fired(t, made) =>
      TellsTheSame(c, c.(armed := c.armed - {t}));
      ConnectTells(cfg, c.(armed := c.armed - {t}), made);
    case Revived(made) =>
      var cleared := ClearTimer(c).(retries := 0, timer := None);
      TellsTheSame(c, cleared);
      ConnectTells(cfg, cleared, made);
    case UserClosed =>
      var closing := ClearTimer(c.(closed := true)).(ws := None);
      TellsTheSame(c, closing);
      SetStateTells(closing, Closed);
  }

  lemma {:induction false} RunsTell(cfg: Config, c: Client, inputs: seq<Input>)
    requires ToldTruly(c)
    ensures ToldTruly(Run(cfg, c, inputs))
    decreases |inputs|
  {
    if inputs != [] {
      StepTells(cfg, c, inputs[0]);
      RunsTell(cfg, Step(cfg, c, inputs[0]), inputs[1..]);
    }
  }

  /** Over every run the state handler is told every change of state, once, and nothing else. */
  lemma {:induction false} StateIsToldExactly(cfg: Config, sinceSeq: nat, made: bool, inputs: seq<Input>)
    ensures ToldTruly(Run(cfg, Started(cfg, sinceSeq, made), inputs))
  {
    assert ToldTruly(Fresh(sinceSeq));
    ConnectTells(cfg, Fresh(sinceSeq), made);
    RunsTell(cfg, Started(cfg, sinceSeq, made), inputs);
  }
}
