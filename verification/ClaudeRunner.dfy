/** The Claude Code lane runner in its stream-json mode (packages/lanes/src/claude-code.ts:139-276). */
module ClaudeRunner {
  import opened Order
  import opened LineFraming
  import opened EventLines
  import opened Budget
  import opened Text

  datatype Event = Event(
    note: Option<string>,
    usage: Option<Usage>,
    summary: Option<string>,
    turn: bool,
    isResult: bool)

  /** As for Codex; `checkAt` is the clock at the budget check of the n-th turn. */
  datatype Run = Run(
    parse: string -> Option<Event>,
    budget: Limits,
    maxTurns: nat,
    guardStart: int,
    checkAt: nat -> int)

  datatype State = State(
    turns: nat,
    usage: Option<Usage>,
    summary: Option<string>,
    budgetReason: Option<Reason>,
    guardTurns: nat,
    guardTokens: int,
    guardUsd: real,
    notes: seq<string>)

  function Start(): State { State(0, None, None, None, 0, 0, 0.0, []) }

  function Cost(u: Usage): real { if u.usd.Some? then u.usd.value else 0.0 }

  function First(reason: Option<Reason>, later: Option<Reason>): Option<Reason> {
    if reason.Some? then reason else later
  }

  function Record(st: State, usage: Option<Usage>): State {
    if usage.None? then st
    else
      var u := usage.value;
      st.(guardTurns := st.guardTurns + 1, guardTokens := st.guardTokens + u.inputTokens + u.outputTokens,
          guardUsd := st.guardUsd + Cost(u))
  }

  function GuardSpend(run: Run, st: State): Spend {
    Spend(st.guardTurns, st.guardTokens, st.guardUsd, run.checkAt(st.turns) - run.guardStart)
  }

  function OnTurn(run: Run, st: State, usage: Option<Usage>): State {
    var counted := Record(st.(turns := st.turns + 1), usage);
    var overTurns := if counted.turns > run.maxTurns then Some(MaxTurns) else None;
    counted.(budgetReason := First(First(st.budgetReason, overTurns), Evaluate(run.budget, GuardSpend(run, counted))))
  }

  function OnResult(st: State, ev: Event): State {
    st.(usage := if ev.usage.Some? then ev.usage else st.usage,
        summary := if Truthy(ev.summary) then ev.summary else st.summary)
  }

  function OnEvent(run: Run, st: State, ev: Event): State {
    var noted := if Truthy(ev.note) then st.(notes := st.notes + [ev.note.value]) else st;
    var turned := if ev.turn then OnTurn(run, noted, ev.usage) else noted;
    if ev.isResult then OnResult(turned, ev) else turned
  }

  function Stepper(run: Run): (State, Event) -> State { (st, ev) => OnEvent(run, st, ev) }

  function FinalSpend(st: State, elapsedMs: int): Spend {
    if st.usage.None? then Spend(st.turns, 0, 0.0, elapsedMs)
    else Spend(st.turns, st.usage.value.inputTokens + st.usage.value.outputTokens, Cost(st.usage.value), elapsedMs)
  }

  function Verdict(run: Run, st: State, refused: bool, cancelled: bool, child: Child, elapsedMs: int): Exit {
    if refused then AbortedExit
    else if child.Threw? then (if cancelled then CancelledExit else AbortedExit)
    else if cancelled then CancelledExit
    else if st.budgetReason.Some? || child.timedOut then BudgetExit
    else if Evaluate(run.budget, FinalSpend(st, elapsedMs)).Some? then BudgetExit
    else if child.exitCode != 0 then PartialExit
    else DoneExit
  }

  class ClaudeRun {
    const run: Run
    const guard: BudgetGuard
    var buffer: string
    var turns: nat
    var usage: Option<Usage>
    var summary: Option<string>
    var budgetReason: Option<Reason>
    var notes: seq<string>

    ghost predicate Valid()
      reads this, guard
    {
      guard.budget == run.budget && guard.startedAt == run.guardStart && guard.turns >= 0
    }

    ghost function View(): Reader<State>
      requires guard.turns >= 0
      reads this, guard
    {
      Reader(State(turns, usage, summary, budgetReason, guard.turns, guard.tokens, guard.usd, notes), buffer)
    }

    constructor (run: Run)
      ensures this.run == run && Valid() && fresh(guard) && View() == Reader(Start(), "")
    {
      this.run := run;
      guard := new BudgetGuard(run.budget, run.guardStart);
      buffer, turns, notes := "", 0, [];
      usage, summary, budgetReason := None, None, None;
    }

    method DoTurn(reported: Option<Usage>)
      requires Valid()
      modifies this`turns, this`budgetReason, guard
      ensures Valid() && View() == old(View()).(state := OnTurn(run, old(View()).state, reported))
    {
      turns := turns + 1;
      if reported.Some? {
        guard.RecordTurn(reported.value);
      }
      if turns > run.maxTurns && budgetReason == None {
        budgetReason := Some(MaxTurns);
      }
      var crossed := guard.Exceeded(run.checkAt(turns));
      if crossed.Some? && budgetReason == None {
        budgetReason := crossed;
      }
    }

    method HandleLine(line: string)
      requires Valid()
      modifies this`turns, this`usage, this`summary, this`budgetReason, this`notes, guard
      ensures Valid() && View() == old(View()).(state := OnLine(run.parse, Stepper(run), old(View()).state, line))
    {
      if Blank(line) {
        return;
      }
      var parsed := run.parse(line);
      if parsed.None? {
        return;
      }
      var ev := parsed.value;
      if Truthy(ev.note) {
        notes := notes + [ev.note.value];
      }
      if ev.turn {
        DoTurn(ev.usage);
      }
      if ev.isResult {
        if ev.usage.Some? {
          usage := ev.usage;
        }
        if Truthy(ev.summary) {
          summary := ev.summary;
        }
      }
    }

    method OnStdout(chunk: string)
      requires Valid()
      modifies this, guard
      ensures Valid() && View() == Feed(Handler(run.parse, Stepper(run)), old(View()), chunk)
    {
      buffer := buffer + chunk;
      ghost var text := buffer;
      ghost var start := View().state;
      var nl := NewlineAt(buffer);
      while nl < |buffer|
        invariant Valid() && nl == NewlineAt(buffer)
        invariant Remainder(text) == Remainder(buffer)
        invariant FoldLines(Handler(run.parse, Stepper(run)), start, Complete(text))
          == FoldLines(Handler(run.parse, Stepper(run)), View().state, Complete(buffer))
        decreases |buffer|
      {
        ghost var before := View().state;
        assert buffer == buffer[..nl] + [NEWLINE] + buffer[nl + 1..];
        LineThenRest(buffer[..nl], buffer[nl + 1..]);
        assert Complete(buffer)[1..] == Complete(buffer[nl + 1..]);
        HandleLine(buffer[..nl]);
        assert View().state == Handler(run.parse, Stepper(run))(before, buffer[..nl]);
        buffer := buffer[nl + 1..];
        nl := NewlineAt(buffer);
      }
      assert buffer[..nl] == buffer;
      NothingComplete(buffer);
    }

    /** The child has exited: the last line may lack its newline. */
    method Finish(refused: bool, cancelled: bool, child: Child, elapsedMs: int) returns (exit: Exit)
      requires Valid()
      modifies this, guard
      ensures Valid() && View() == old(View()).(state :=
        if refused || child.Threw? then old(View()).state
        else OnLine(run.parse, Stepper(run), old(View()).state, old(buffer)))
      ensures exit == Verdict(run, View().state, refused, cancelled, child, elapsedMs)
    {
      if refused {
        return AbortedExit;
      }
      if child.Threw? {
        return if cancelled then CancelledExit else AbortedExit;
      }
      if !Blank(buffer) {
        HandleLine(buffer);
      }
      if cancelled {
        return CancelledExit;
      }
      if budgetReason.Some? || child.timedOut {
        return BudgetExit;
      }
      var final := if usage.Some? then usage.value else Usage(0, 0, None);
      var cost := if final.usd.Some? then final.usd.value else 0.0;
      var overrun := Evaluate(run.budget, Spend(turns, final.inputTokens + final.outputTokens, cost, elapsedMs));
      if overrun.Some? {
        return BudgetExit;
      }
      return if child.exitCode != 0 then PartialExit else DoneExit;
    }
  }
}
