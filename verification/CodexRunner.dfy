/** The Codex lane runner (packages/lanes/src/codex.ts:96-266): its line handler and its verdict. */
module CodexRunner {
  import opened Order
  import opened LineFraming
  import opened EventLines
  import opened Budget
  import opened Text

  datatype Item =
    | AgentMessage(text: string)
    | CommandExecution(command: string)
    | FileChange
    | ErrorItem(message: string)
    | OtherItem

  datatype Event =
    | TurnStarted
    | ItemCompleted(item: Item)
    | TurnCompleted(usage: Option<Usage>)
    | TurnFailed(message: Option<string>)
    | OtherEvent

  /**
   * One run's surroundings: how a line parses, if it does; the bounds; the guard's start; and the
   * clock reading of the n-th budget check.
   */
  datatype Run = Run(
    parse: string -> Option<Event>,
    budget: Limits,
    maxTurns: nat,
    guardStart: int,
    checkAt: nat -> int)

  /** `budgetReason` is also the internal abort: both happen once, together. */
  datatype State = State(
    turns: nat,
    usage: Option<Usage>,
    summary: Option<string>,
    failure: Option<string>,
    budgetReason: Option<Reason>,
    guardTurns: nat,
    guardTokens: int,
    progress: seq<string>)

  const NO_MESSAGE := "codex turn failed"

  function Start(): State { State(0, None, None, None, None, 0, 0, []) }

  function OnItem(st: State, item: Item): State {
    match item
    case AgentMessage(text) =>
      if text != "" then st.(summary := Some(text), progress := st.progress + [Take(text, 200)]) else st
    case CommandExecution(command) =>
      if command != "" then st.(progress := st.progress + ["$ " + Take(command, 180)]) else st
    case FileChange => st.(progress := st.progress + ["writing files in the workspace"])
    case ErrorItem(message) =>
      if message != "" then st.(progress := st.progress + ["codex: " + Take(message, 180)]) else st
    case OtherItem => st
  }

  /** The guard's spend after a turn's usage; Codex reports no dollar cost. */
  function GuardSpend(run: Run, turns: nat, tokens: int): Spend {
    Spend(turns, tokens, 0.0, run.checkAt(turns) - run.guardStart)
  }

  function OnEvent(run: Run, st: State, ev: Event): State {
    match ev
    case TurnStarted =>
      var turns := st.turns + 1;
      st.(turns := turns,
          budgetReason := if turns > run.maxTurns && st.budgetReason == None then Some(MaxTurns) else st.budgetReason)
    case ItemCompleted(item) => OnItem(st, item)
    case TurnCompleted(usage) =>
      if usage == None then st
      else
        var u := usage.value;
        var turns, tokens := st.guardTurns + 1, st.guardTokens + u.inputTokens + u.outputTokens;
        var crossed := Evaluate(run.budget, GuardSpend(run, turns, tokens));
        st.(usage := Some(u.(usd := None)), guardTurns := turns, guardTokens := tokens,
            budgetReason := if crossed.Some? && st.budgetReason == None then crossed else st.budgetReason)
    case TurnFailed(message) => st.(failure := Some(if message.Some? then message.value else NO_MESSAGE))
    case OtherEvent => st
  }

  function Stepper(run: Run): (State, Event) -> State { (st, ev) => OnEvent(run, st, ev) }

  // ---- the runner ----

  function LastTokens(st: State): int {
    if st.usage.Some? then st.usage.value.inputTokens + st.usage.value.outputTokens else 0
  }

  function FinalSpend(st: State, elapsedMs: int): Spend { Spend(st.turns, LastTokens(st), 0.0, elapsedMs) }

  /** The report's exit; `refused` covers the checks before anything runs. */
  function Verdict(run: Run, st: State, refused: bool, cancelled: bool, child: Child, elapsedMs: int): Exit {
    if refused then AbortedExit
    else if child.Threw? then (if cancelled then CancelledExit else AbortedExit)
    else if cancelled then CancelledExit
    else if st.budgetReason.Some? then BudgetExit
    else if child.timedOut then BudgetExit
    else if Evaluate(run.budget, FinalSpend(st, elapsedMs)).Some? then BudgetExit
    else if Truthy(st.failure) then PartialExit
    else if child.exitCode != 0 then PartialExit
    else DoneExit
  }

  class CodexRun {
    const run: Run
    const guard: BudgetGuard
    var buffer: string
    var turns: nat
    var usage: Option<Usage>
    var summary: Option<string>
    var failure: Option<string>
    var budgetReason: Option<Reason>
    var progress: seq<string>

    ghost predicate Valid()
      reads this, guard
    {
      guard.budget == run.budget && guard.startedAt == run.guardStart && guard.usd == 0.0 && guard.turns >= 0
    }

    ghost function View(): Reader<State>
      requires guard.turns >= 0
      reads this, guard
    {
      Reader(State(turns, usage, summary, failure, budgetReason, guard.turns, guard.tokens, progress), buffer)
    }

    constructor (run: Run)
      ensures this.run == run && Valid() && fresh(guard) && View() == Reader(Start(), "")
    {
      this.run := run;
      guard := new BudgetGuard(run.budget, run.guardStart);
      buffer, turns, progress := "", 0, [];
      usage, summary, failure, budgetReason := None, None, None, None;
    }

    method DoItem(item: Item)
      requires Valid()
      modifies this`summary, this`progress
      ensures Valid() && View() == old(View()).(state := OnItem(old(View()).state, item))
    {
      match item
      case AgentMessage(text) =>
        if text != "" {
          summary := Some(text);
          progress := progress + [Take(text, 200)];
        }
      case CommandExecution(command) =>
        if command != "" {
          progress := progress + ["$ " + Take(command, 180)];
        }
      case FileChange =>
        progress := progress + ["writing files in the workspace"];
      case ErrorItem(message) =>
        if message != "" {
          progress := progress + ["codex: " + Take(message, 180)];
        }
      case OtherItem =>
    }

    method HandleLine(line: string)
      requires Valid()
      modifies this`turns, this`usage, this`summary, this`failure, this`budgetReason, this`progress, guard
      ensures Valid() && View() == old(View()).(state := OnLine(run.parse, Stepper(run), old(View()).state, line))
    {
      if Blank(line) {
        return;
      }
      var parsed := run.parse(line);
      if parsed.None? {
        return;
      }
      match parsed.value
      case TurnStarted =>
        turns := turns + 1;
        if turns > run.maxTurns && budgetReason == None {
          budgetReason := Some(MaxTurns);
        }
      case ItemCompleted(item) =>
        DoItem(item);
      case TurnCompleted(reported) =>
        if reported.Some? {
          var u := reported.value.(usd := None);
          usage := Some(u);
          guard.RecordTurn(u);
          var crossed := guard.Exceeded(run.checkAt(guard.turns));
          if crossed.Some? && budgetReason == None {
            budgetReason := crossed;
          }
        }
      case TurnFailed(message) =>
        failure := Some(if message.Some? then message.value else NO_MESSAGE);
      case OtherEvent =>
    }

    method OnStdout(chunk: string)
      requires Valid()
      modifies this, guard
      ensures Valid() && View() == Feed(Handler(run.parse, Stepper(run)), old(View()), chunk)
    {
      buffer := buffer + chunk;
      ghost var text := buffer;
      ghost var start := View().state;
      var nl := NewlineAt(buffer);
      while nl < |buffer|
        invariant Valid() && nl == NewlineAt(buffer)
        invariant Remainder(text) == Remainder(buffer)
        invariant FoldLines(Handler(run.parse, Stepper(run)), start, Complete(text))
          == FoldLines(Handler(run.parse, Stepper(run)), View().state, Complete(buffer))
        decreases |buffer|
      {
        ghost var before := View().state;
        assert buffer == buffer[..nl] + [NEWLINE] + buffer[nl + 1..];
        LineThenRest(buffer[..nl], buffer[nl + 1..]);
        assert Complete(buffer)[1..] == Complete(buffer[nl + 1..]);
        HandleLine(buffer[..nl]);
        assert View().state == Handler(run.parse, Stepper(run))(before, buffer[..nl]);
        buffer := buffer[nl + 1..];
        nl := NewlineAt(buffer);
      }
      assert buffer[..nl] == buffer;
      NothingComplete(buffer);
    }

    /** The child has exited: the last line may lack its newline. */
    method Finish(refused: bool, cancelled: bool, child: Child, elapsedMs: int) returns (exit: Exit)
      requires Valid()
      modifies this, guard
      ensures Valid() && View() == old(View()).(state :=
        if refused || child.Threw? then old(View()).state
        else OnLine(run.parse, Stepper(run), old(View()).state, old(buffer)))
      ensures exit == Verdict(run, View().state, refused, cancelled, child, elapsedMs)
    {
      if refused {
        return AbortedExit;
      }
      if child.Threw? {
        return if cancelled then CancelledExit else AbortedExit;
      }
      if !Blank(buffer) {
        HandleLine(buffer);
      }
      if cancelled {
        return CancelledExit;
      }
      if budgetReason.Some? || child.timedOut {
        return BudgetExit;
      }
      var tokens := if usage.Some? then usage.value.inputTokens + usage.value.outputTokens else 0;
      var overrun := Evaluate(run.budget, Spend(turns, tokens, 0.0, elapsedMs));
      if overrun.Some? {
        return BudgetExit;
      }
      if Truthy(failure) || child.exitCode != 0 {
        return PartialExit;
      }
      return DoneExit;
    }
  }
}
