/**
 * The reconnecting subscription of the web client (apps/web/src/stream.ts:110-252): its closure
 * variables, the sockets and timers it makes, and everything its handlers were told.
 */
module StreamClient {
  import opened Order
  import opened Events

  datatype StreamState = Connecting | Open | Reconnecting | GaveUp | Closed

  /** A call of one of the caller's handlers. */
  datatype Call =
    | OnEvent(event: Event)
    | OnProjectEvent(event: Event)
    | OnProjectSessionEvent(event: Event)
    | OnReplayed(sinceSeq: nat)
    | OnState(state: StreamState)

  datatype Config = Config(maxRetries: nat, backoff: seq<int>)

  /**
   * `timer` is the variable, which keeps the handle of a timer that has fired; `armed` maps the
   * timers that are really pending to their delays. Sockets and timers are numbered as they are made.
   */
  datatype Client = Client(
    lastSeq: nat,
    state: StreamState,
    retries: nat,
    closed: bool,
    ws: Option<nat>,
    timer: Option<nat>,
    armed: map<nat, int>,
    socketsMade: nat,
    timersMade: nat,
    calls: seq<Call>)

  const DEFAULT_DELAY := 1000

  function Min(a: int, b: int): int { if a < b then a else b }

  /** `backoff[min(retries, backoff.length - 1)] ?? 1000`: the last entry repeats. */
  function Delay(backoff: seq<int>, retries: nat): int {
    var i := Min(retries, |backoff| - 1);
    if 0 <= i then backoff[i] else DEFAULT_DELAY
  }

  function Fresh(sinceSeq: nat): Client {
    Client(sinceSeq, Connecting, 0, false, None, None, map[], 0, 0, [])
  }

  function SetState(c: Client, s: StreamState): Client {
    if c.state == s then c else c.(state := s, calls := c.calls + [OnState(s)])
  }

  function ScheduleReconnect(cfg: Config, c: Client): Client {
    if c.closed then c
    else if c.retries >= cfg.maxRetries then SetState(c, GaveUp)
    else
      var waiting := SetState(c.(retries := c.retries + 1), Reconnecting);
      waiting.(timer := Some(c.timersMade),
               armed := waiting.armed[c.timersMade := Delay(cfg.backoff, c.retries)],
               timersMade := c.timersMade + 1)
  }

  /** `made` says whether the socket factory returned or threw. */
  function Connect(cfg: Config, c: Client, made: bool): Client {
    if c.closed then c
    else if !made then ScheduleReconnect(cfg, c)
    else SetState(c.(ws := Some(c.socketsMade), socketsMade := c.socketsMade + 1), Connecting)
  }

  predicate Listens(c: Client, socket: nat) { !c.closed && c.ws == Some(socket) }

  function SocketOpened(c: Client, socket: nat): Client {
    if !Listens(c, socket) then c else SetState(c.(retries := 0), Open)
  }

  /** A frame that parses; anything else is dropped and changes nothing. */
  function Receive(c: Client, socket: nat, frame: Frame): Client {
    if !Listens(c, socket) then c
    else
      match frame
      case EventFrame(ev) =>
        c.(lastSeq := if ev.number > c.lastSeq then ev.number else c.lastSeq, calls := c.calls + [OnEvent(ev)])
      case ProjectEvent(ev) => c.(calls := c.calls + [OnProjectEvent(ev)])
      case ProjectSession(ev) =>
        if ev.kind == LanePane then c.(calls := c.calls + [OnProjectSessionEvent(ev)]) else c
      case Replayed(n) => c.(calls := c.calls + [OnReplayed(n)])
  }

  function SocketClosed(cfg: Config, c: Client, socket: nat): Client {
    if c.ws != Some(socket) then c
    else
      var gone := c.(ws := None);
      if gone.closed then gone else ScheduleReconnect(cfg, gone)
  }

  function TimerFired(cfg: Config, c: Client, timer: nat, made: bool): Client {
    if timer !in c.armed then c else Connect(cfg, c.(armed := c.armed - {timer}), made)
  }

  function ClearTimer(c: Client): Client {
    if c.timer.Some? then c.(armed := c.armed - {c.timer.value}) else c
  }

  /** The network or the tab came back. */
  function Revive(cfg: Config, c: Client, made: bool): Client {
    if c.closed || (c.state != GaveUp && c.state != Reconnecting) then c
    else Connect(cfg, ClearTimer(c).(retries := 0, timer := None), made)
  }

  function Close(c: Client): Client {
    SetState(ClearTimer(c.(closed := true)).(ws := None), Closed)
  }

  // ---- every run of the client ----

  datatype Input =
    | Opened(socket: nat)
    | Message(socket: nat, frame: Frame)
    | Dropped(socket: nat)
    | Fired(timer: nat, made: bool)
    | Revived(made: bool)
    | UserClosed

  function Step(cfg: Config, c: Client, input: Input): Client {
    match input
    case Opened(s) => SocketOpened(c, s)
    case Message(s, f) => Receive(c, s, f)
    case Dropped(s) => SocketClosed(cfg, c, s)
    case Fired(t, made) => TimerFired(cfg, c, t, made)
    case Revived(made) => Revive(cfg, c, made)
    case UserClosed => Close(c)
  }

  function Run(cfg: Config, c: Client, inputs: seq<Input>): Client
    decreases |inputs|
  {
    if inputs == [] then c else Run(cfg, Step(cfg, c, inputs[0]), inputs[1..])
  }

  function Started(cfg: Config, sinceSeq: nat, made: bool): Client { Connect(cfg, Fresh(sinceSeq), made) }

  /**
   * Exactly one thing drives the subscription: a current socket while connecting or open, one
   * pending timer while reconnecting, and nothing once it gave up or was closed.
   */
  predicate OneDriver(cfg: Config, c: Client) {
    && c.retries <= cfg.maxRetries
    && (c.closed <==> c.state == Closed)
    && (c.ws.Some? <==> c.state == Connecting || c.state == Open)
    && (c.ws.Some? ==> c.ws.value < c.socketsMade)
    && (if c.state == Reconnecting then c.timer.Some? && c.armed.Keys == {c.timer.value} else c.armed == map[])
  }

  lemma NothingLeft(c: Client)
    ensures c.armed == map[] || (c.timer.Some? && c.armed.Keys == {c.timer.value}) ==> ClearTimer(c).armed == map[]
  {
  }

  lemma StepKeepsOneDriver(cfg: Config, c: Client, input: Input)
    requires OneDriver(cfg, c)
    ensures OneDriver(cfg, Step(cfg, c, input))
  {
    NothingLeft(c);
  }

  /** In every reachable state there is one driver, whatever sockets, timers and tabs do. */
  lemma {:induction false} ReachableHasOneDriver(cfg: Config, c: Client, inputs: seq<Input>)
    requires OneDriver(cfg, c)
    ensures OneDriver(cfg, Run(cfg, c, inputs))
    decreases |inputs|
  {
    if inputs != [] {
      StepKeepsOneDriver(cfg, c, inputs[0]);
      ReachableHasOneDriver(cfg, Step(cfg, c, inputs[0]), inputs[1..]);
    }
  }

  lemma RunsHaveOneDriver(cfg: Config, sinceSeq: nat, made: bool, inputs: seq<Input>)
    ensures OneDriver(cfg, Run(cfg, Started(cfg, sinceSeq, made), inputs))
  {
    ReachableHasOneDriver(cfg, Started(cfg, sinceSeq, made), inputs);
  }

  /** Closing is final: from then on no input is answered and no handler is called. */
  lemma {:induction false} ClosedIsFinal(cfg: Config, c: Client, inputs: seq<Input>)
    requires OneDriver(cfg, c) && c.closed
    ensures Run(cfg, c, inputs) == c
    decreases |inputs|
  {
    if inputs != [] {
      NothingLeft(c);
      assert Step(cfg, c, inputs[0]) == c;
      ClosedIsFinal(cfg, c, inputs[1..]);
    }
  }

  /** The cursor only ever moves forward, and only an event frame of the current socket moves it. */
  lemma CursorMovesByEvents(cfg: Config, c: Client, input: Input)
    ensures var next := Step(cfg, c, input);
      && next.lastSeq >= c.lastSeq
      && (next.lastSeq != c.lastSeq ==>
            input.Message? && Listens(c, input.socket) && input.frame.EventFrame?
            && next.lastSeq == input.frame.event.number)
  {
  }

  /** A connection that fails again and again: the socket drops, the timer fires, the next one drops. */
  function Failing(cfg: Config, c: Client, times: nat): Client
    decreases times
  {
    if times == 0 then c
    else
      var before := Failing(cfg, c, times - 1);
      var waiting := SocketClosed(cfg, before, if before.ws.Some? then before.ws.value else 0);
      TimerFired(cfg, waiting, if waiting.timer.Some? then waiting.timer.value else 0, true)
  }

  /**
   * The retry budget is spent exactly: after `times` failures in a row within the budget there is a
   * new attempt, the next failure is answered with the scheduled delay while budget is left, and
   * with giving up once there is none.
   */
  lemma {:induction false} GivesUpExactly(cfg: Config, c: Client, times: nat)
    requires OneDriver(cfg, c) && c.state == Connecting && c.retries == 0 && times <= cfg.maxRetries
    ensures var failing := Failing(cfg, c, times);
      && OneDriver(cfg, failing) && failing.state == Connecting && failing.retries == times
      && DroppedExactly(cfg, failing, times)
  {
    if times > 0 {
      GivesUpExactly(cfg, c, times - 1);
      FailsOnce(cfg, Failing(cfg, c, times - 1));
    }
    DropExactly(cfg, Failing(cfg, c, times));
  }

  /** A failure is answered with the scheduled delay while budget is left, and with giving up once there is none. */
  predicate DroppedExactly(cfg: Config, c: Client, times: nat)
    requires c.ws.Some?
  {
    var dropped := SocketClosed(cfg, c, c.ws.value);
    if times < cfg.maxRetries then dropped.state == Reconnecting && dropped.armed.Values == {Delay(cfg.backoff, times)}
    else dropped.state == GaveUp && dropped.armed == map[]
  }

  lemma {:induction false} FailsOnce(cfg: Config, c: Client)
    requires OneDriver(cfg, c) && c.state == Connecting && c.retries < cfg.maxRetries
    ensures var waiting := SocketClosed(cfg, c, c.ws.value);
      && waiting.timer.Some?
      && var next := TimerFired(cfg, waiting, waiting.timer.value, true);
        OneDriver(cfg, next) && next.state == Connecting && next.retries == c.retries + 1
  {
    var waiting := SocketClosed(cfg, c, c.ws.value);
    StepKeepsOneDriver(cfg, c, Dropped(c.ws.value));
    StepKeepsOneDriver(cfg, waiting, Fired(waiting.timer.value, true));
  }

  lemma {:induction false} DropExactly(cfg: Config, c: Client)
    requires OneDriver(cfg, c) && c.state == Connecting
    ensures DroppedExactly(cfg, c, c.retries)
  {
    if c.retries < cfg.maxRetries {
      var dropped := SocketClosed(cfg, c, c.ws.value);
      assert dropped.armed == map[c.timersMade := Delay(cfg.backoff, c.retries)];
      assert c.timersMade in dropped.armed;
    }
  }

  // ---- the client itself ----

  class EventStream {
    const cfg: Config
    var lastSeq: nat
    var state: StreamState
    var retries: nat
    var closed: bool
    var ws: Option<nat>
    var timer: Option<nat>
    var armed: map<nat, int>
    var socketsMade: nat
    var timersMade: nat
    var calls: seq<Call>

    ghost function View(): Client
      reads this
    {
      Client(lastSeq, state, retries, closed, ws, timer, armed, socketsMade, timersMade, calls)
    }

    ghost predicate Valid()
      reads this
    {
      OneDriver(cfg, View())
    }

    constructor (cfg: Config, sinceSeq: nat, made: bool)
      ensures this.cfg == cfg && View() == Started(cfg, sinceSeq, made) && Valid()
    {
      this.cfg := cfg;
      lastSeq, state, retries, closed := sinceSeq, Connecting, 0, false;
      ws, timer, armed, socketsMade, timersMade, calls := None, None, map[], 0, 0, [];
      new;
      DoConnect(made);
    }

    method DoSetState(s: StreamState)
      modifies this
      ensures View() == SetState(old(View()), s)
    {
      if state == s {
        return;
      }
      state := s;
      calls := calls + [OnState(s)];
    }

    method DoScheduleReconnect()
      modifies this
      ensures View() == ScheduleReconnect(cfg, old(View()))
    {
      if closed {
        return;
      }
      if retries >= cfg.maxRetries {
        DoSetState(GaveUp);
        return;
      }
      var delay := Delay(cfg.backoff, retries);
      retries := retries + 1;
      DoSetState(Reconnecting);
      timer := Some(timersMade);
      armed := armed[timersMade := delay];
      timersMade := timersMade + 1;
    }

    method DoConnect(made: bool)
      modifies this
      ensures View() == Connect(cfg, old(View()), made)
    {
      if closed {
        return;
      }
      if !made {
        DoScheduleReconnect();
        return;
      }
      ws := Some(socketsMade);
      socketsMade := socketsMade + 1;
      if state != Connecting {
        DoSetState(Connecting);
      }
    }

    method OnOpen(socket: nat)
      requires Valid()
      modifies this
      ensures Valid()
      ensures View() == Step(cfg, old(View()), Opened(socket))
      ensures if old(ws) == Some(socket) && !old(closed) then state == Open && retries == 0 else View() == old(View())
    {
      StepKeepsOneDriver(cfg, View(), Opened(socket));
      if closed || ws != Some(socket) {
        return;
      }
      retries := 0;
      DoSetState(Open);
    }

    method OnMessage(socket: nat, frame: Frame)
      requires Valid()
      modifies this
      ensures Valid()
      ensures View() == Step(cfg, old(View()), Message(socket, frame))
    {
      StepKeepsOneDriver(cfg, View(), Message(socket, frame));
      if closed || ws != Some(socket) {
        return;
      }
      match frame
      case EventFrame(ev) =>
        if ev.number > lastSeq {
          lastSeq := ev.number;
        }
        calls := calls + [OnEvent(ev)];
      case ProjectEvent(ev) =>
        calls := calls + [OnProjectEvent(ev)];
      case ProjectSession(ev) =>
        if ev.kind == LanePane {
          calls := calls + [OnProjectSessionEvent(ev)];
        }
      case Replayed(n) =>
        calls := calls + [OnReplayed(n)];
    }

    method OnClose(socket: nat)
      requires Valid()
      modifies this
      ensures Valid()
      ensures View() == Step(cfg, old(View()), Dropped(socket))
      ensures old(ws) == Some(socket) ==> ws == None && (state == GaveUp || (state == Reconnecting && |armed| == 1))
    {
      StepKeepsOneDriver(cfg, View(), Dropped(socket));
      if ws != Some(socket) {
        return;
      }
      ws := None;
      if !closed {
        DoScheduleReconnect();
      }
    }

    method OnTimer(fired: nat, made: bool)
      requires Valid()
      modifies this
      ensures Valid()
      ensures View() == Step(cfg, old(View()), Fired(fired, made))
      ensures fired in old(armed) && made ==> state == Connecting && ws == Some(old(socketsMade)) && armed == map[]
    {
      StepKeepsOneDriver(cfg, View(), Fired(fired, made));
      if fired in armed {
        armed := armed - {fired};
        DoConnect(made);
      }
    }

    method OnRevive(made: bool)
      requires Valid()
      modifies this
      ensures Valid()
      ensures View() == Step(cfg, old(View()), Revived(made))
      ensures (old(state) == GaveUp || old(state) == Reconnecting) && made ==>
        state == Connecting && retries == 0 && ws == Some(old(socketsMade)) && armed == map[]
      ensures old(state) != GaveUp && old(state) != Reconnecting ==> View() == old(View())
    {
      StepKeepsOneDriver(cfg, View(), Revived(made));
      if closed {
        return;
      }
      if state == GaveUp || state == Reconnecting {
        retries := 0;
        if timer.Some? {
          armed := armed - {timer.value};
          timer := None;
        }
        DoConnect(made);
      }
    }

    method DoClose()
      requires Valid()
      modifies this
      ensures Valid()
      ensures View() == Step(cfg, old(View()), UserClosed)
      ensures closed && state == Closed && ws == None && armed == map[]
    {
      StepKeepsOneDriver(cfg, View(), UserClosed);
      closed := true;
      if timer.Some? {
        armed := armed - {timer.value};
      }
      ws := None;
      DoSetState(Closed);
    }
  }
}
