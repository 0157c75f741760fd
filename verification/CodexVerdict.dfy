/** What a Codex lane's verdict says about everything its child printed. */
module CodexVerdict {
  import opened Order
  import opened LineFraming
  import opened EventLines
  import opened Budget
  import opened CodexRunner
  import opened Text

  function After(run: Run, evs: seq<Event>): State { Steps(Stepper(run), Start(), evs) }

  // ---- what the child reported ----

  function Started(evs: seq<Event>): nat {
    if evs == [] then 0
    else Started(evs[..|evs| - 1]) + (if evs[|evs| - 1].TurnStarted? then 1 else 0)
  }

  function Reported(evs: seq<Event>): seq<Usage> {
    if evs == [] then []
    else
      var before, ev := Reported(evs[..|evs| - 1]), evs[|evs| - 1];
      if ev.TurnCompleted? && ev.usage.Some? then before + [ev.usage.value] else before
  }

  function LastFailure(evs: seq<Event>): Option<string> {
    if evs == [] then None
    else
      var ev := evs[|evs| - 1];
      if ev.TurnFailed? then Some(if ev.message.Some? then ev.message.value else NO_MESSAGE)
      else LastFailure(evs[..|evs| - 1])
  }

  /** The last thing the agent said that was not empty. */
  function LastText(evs: seq<Event>): Option<string> {
    if evs == [] then None
    else
      match evs[|evs| - 1]
      case ItemCompleted(AgentMessage(text)) => if text != "" then Some(text) else LastText(evs[..|evs| - 1])
      case _ => LastText(evs[..|evs| - 1])
  }

  /** The progress told on an item: nothing on an empty text, and never more than 200 characters. */
  function Told(ev: Event): seq<string> {
    match ev
    case ItemCompleted(AgentMessage(text)) => if text == "" then [] else [Take(text, 200)]
    case ItemCompleted(CommandExecution(command)) => if command == "" then [] else ["$ " + Take(command, 180)]
    case ItemCompleted(ErrorItem(message)) => if message == "" then [] else ["codex: " + Take(message, 180)]
    case ItemCompleted(FileChange) => ["writing files in the workspace"]
    case _ => []
  }

  function AllTold(evs: seq<Event>): seq<string> {
    if evs == [] then [] else AllTold(evs[..|evs| - 1]) + Told(evs[|evs| - 1])
  }

  /** After the k-th reported turn the guard was within every bound, by the clock of that moment. */
  predicate CheckPassed(run: Run, usages: seq<Usage>, k: nat)
    requires k <= |usages|
  {
    Within(run.budget, GuardSpend(run, k, Tokens(usages[..k])))
  }

  predicate AllPassed(run: Run, usages: seq<Usage>) {
    forall k | 1 <= k <= |usages| :: CheckPassed(run, usages, k)
  }

  predicate InBounds(run: Run, evs: seq<Event>) {
    Started(evs) <= run.maxTurns && AllPassed(run, Reported(evs))
  }

  /** The runner's counters are what the child reported. */
  predicate Counts(st: State, evs: seq<Event>) {
    var usages := Reported(evs);
    && st.turns == Started(evs) && st.guardTurns == |usages| && st.guardTokens == Tokens(usages)
    && st.failure == LastFailure(evs)
    && st.usage == (if usages == [] then None else Some(usages[|usages| - 1].(usd := None)))
  }

  lemma {:induction false} AfterCounts(run: Run, evs: seq<Event>)
    ensures Counts(After(run, evs), evs)
  {
    if evs != [] {
      var before, ev := evs[..|evs| - 1], evs[|evs| - 1];
      AfterCounts(run, before);
      if ev.TurnCompleted? && ev.usage.Some? {
        assert Reported(evs)[..|Reported(before)|] == Reported(before);
      }
    }
  }

  /** What the lane says of itself: the last text of the agent, and the progress on each item as it came. */
  lemma {:induction false} AfterSays(run: Run, evs: seq<Event>)
    ensures After(run, evs).summary == LastText(evs) && After(run, evs).progress == AllTold(evs)
  {
    if evs != [] {
      AfterSays(run, evs[..|evs| - 1]);
    }
  }

  lemma ChecksSnoc(run: Run, usages: seq<Usage>, u: Usage)
    ensures AllPassed(run, usages + [u]) <==> AllPassed(run, usages) && CheckPassed(run, usages + [u], |usages| + 1)
  {
    var longer := usages + [u];
    forall k | 1 <= k <= |usages| ensures CheckPassed(run, longer, k) <==> CheckPassed(run, usages, k) {
      assert longer[..k] == usages[..k];
    }
  }

  lemma ReportSnoc(evs: seq<Event>, ev: Event)
    ensures Started(evs + [ev]) == Started(evs) + (if ev.TurnStarted? then 1 else 0)
    ensures Reported(evs + [ev]) ==
      if ev.TurnCompleted? && ev.usage.Some? then Reported(evs) + [ev.usage.value] else Reported(evs)
  {
    assert (evs + [ev])[..|evs|] == evs;
  }

  lemma {:induction false} AbortStep(run: Run, st: State, evs: seq<Event>, ev: Event)
    requires Counts(st, evs) && (st.budgetReason == None <==> InBounds(run, evs))
    ensures OnEvent(run, st, ev).budgetReason == None <==> InBounds(run, evs + [ev])
  {
    ReportSnoc(evs, ev);
    if ev.TurnCompleted? && ev.usage.Some? {
      TurnStep(run, st, Reported(evs), ev.usage.value);
    }
  }

  /** A reported turn arms the abort exactly when the check made then fails. */
  lemma {:induction false} TurnStep(run: Run, st: State, usages: seq<Usage>, u: Usage)
    requires st.guardTurns == |usages| && st.guardTokens == Tokens(usages)
    ensures OnEvent(run, st, TurnCompleted(Some(u))).budgetReason == None <==>
      st.budgetReason == None && CheckPassed(run, usages + [u], |usages| + 1)
    ensures AllPassed(run, usages + [u]) <==> AllPassed(run, usages) && CheckPassed(run, usages + [u], |usages| + 1)
  {
    ChecksSnoc(run, usages, u);
    TokensSnoc(usages, u);
    assert (usages + [u])[..|usages| + 1] == usages + [u];
    EvaluateExact(run.budget, GuardSpend(run, |usages| + 1, Tokens(usages + [u])));
  }

  /** The abort is armed exactly when some bound was crossed at some point of the output, and stays. */
  lemma {:induction false} AbortedExactly(run: Run, evs: seq<Event>)
    ensures After(run, evs).budgetReason == None <==> InBounds(run, evs)
  {
    if evs != [] {
      var before, ev := evs[..|evs| - 1], evs[|evs| - 1];
      AbortedExactly(run, before);
      AfterCounts(run, before);
      AbortStep(run, After(run, before), before, ev);
      assert evs == before + [ev];
    }
  }

  /** What the event after these makes the runner stop for, if it had not stopped yet. */
  predicate StopsFor(run: Run, evs: seq<Event>, ev: Event, r: Reason) {
    || (ev.TurnStarted? && Started(evs) + 1 > run.maxTurns && r == MaxTurns)
    || (ev.TurnCompleted? && ev.usage.Some?
        && var usages := Reported(evs) + [ev.usage.value];
           FirstExceeded(run.budget, GuardSpend(run, |usages|, Tokens(usages)), r))
  }

  predicate StoppedAt(run: Run, evs: seq<Event>, n: nat, r: Reason) {
    n < |evs| && InBounds(run, evs[..n]) && StopsFor(run, evs[..n], evs[n], r)
  }

  lemma TurnStopsFor(run: Run, st: State, usages: seq<Usage>, u: Usage, r: Reason)
    requires st.guardTurns == |usages| && st.guardTokens == Tokens(usages)
    ensures OnEvent(run, st, TurnCompleted(Some(u))).budgetReason == Some(r) <==>
      st.budgetReason == Some(r)
      || (st.budgetReason == None
          && FirstExceeded(run.budget, GuardSpend(run, |usages| + 1, Tokens(usages + [u])), r))
  {
    TokensSnoc(usages, u);
    EvaluateNames(run.budget, GuardSpend(run, |usages| + 1, Tokens(usages + [u])), r);
  }

  lemma StopStep(run: Run, st: State, evs: seq<Event>, ev: Event, r: Reason)
    requires Counts(st, evs)
    ensures OnEvent(run, st, ev).budgetReason == Some(r) <==>
      st.budgetReason == Some(r) || (st.budgetReason == None && StopsFor(run, evs, ev, r))
  {
    if ev.TurnCompleted? && ev.usage.Some? {
      TurnStopsFor(run, st, Reported(evs), ev.usage.value, r);
    }
  }

  ghost predicate StoppedFor(run: Run, evs: seq<Event>, r: Reason) { exists n: nat :: StoppedAt(run, evs, n, r) }

  lemma StoppedSnoc(run: Run, evs: seq<Event>, ev: Event, r: Reason)
    ensures StoppedFor(run, evs + [ev], r) <==>
      StoppedFor(run, evs, r) || (InBounds(run, evs) && StopsFor(run, evs, ev, r))
  {
    var all := evs + [ev];
    assert all[..|evs|] == evs && all[|evs|] == ev;
    if n: nat :| StoppedAt(run, all, n, r) {
      assert n < |evs| ==> all[..n] == evs[..n] && StoppedAt(run, evs, n, r);
    }
    if n: nat :| StoppedAt(run, evs, n, r) {
      assert all[..n] == evs[..n] && StoppedAt(run, all, n, r);
    }
    if InBounds(run, evs) && StopsFor(run, evs, ev, r) {
      assert StoppedAt(run, all, |evs|, r);
    }
  }

  /** The reason kept is that of the first bound crossed, in the order of events and then of bounds. */
  lemma {:induction false} AbortedFor(run: Run, evs: seq<Event>, r: Reason)
    ensures After(run, evs).budgetReason == Some(r) <==> StoppedFor(run, evs, r)
  {
    if evs != [] {
      var before, ev := evs[..|evs| - 1], evs[|evs| - 1];
      assert evs == before + [ev];
      AbortedFor(run, before, r);
      AbortedExactly(run, before);
      AfterCounts(run, before);
      StopStep(run, After(run, before), before, ev, r);
      StoppedSnoc(run, before, ev, r);
    }
  }

  function LastReported(evs: seq<Event>): int {
    var usages := Reported(evs);
    if usages == [] then 0 else usages[|usages| - 1].inputTokens + usages[|usages| - 1].outputTokens
  }

  /** A bound was crossed at some point of the output, or in time, or by what the output comes to. */
  predicate OverBudget(run: Run, evs: seq<Event>, timedOut: bool, elapsedMs: int) {
    || timedOut
    || (exists k :: 0 <= k <= |evs| && !InBounds(run, evs[..k]))
    || !Within(run.budget, Spend(Started(evs), LastReported(evs), 0.0, elapsedMs))
  }

  lemma SomePrefixOut(run: Run, evs: seq<Event>)
    ensures (exists k :: 0 <= k <= |evs| && !InBounds(run, evs[..k])) <==> !InBounds(run, evs)
  {
    assert evs[..|evs|] == evs;
    if k :| 0 <= k <= |evs| && !InBounds(run, evs[..k]) {
      if InBounds(run, evs) {
        InBoundsAtEveryPrefix(run, evs, k);
      }
    }
  }

  /**
   * Every exit, for every output however chunked. Refusal comes first, then the operator's
   * cancellation, then a runner that threw, then the budget, and last a failure that the output
   * reported or the child's code.
   */
  lemma {:induction false} ExitsExactly(
    run: Run, chunks: seq<string>, refused: bool, cancelled: bool, child: Child, elapsedMs: int)
    ensures var evs := Parsed(run.parse, Pieces(Concat(chunks)));
      var exit := Verdict(run, AtExit(run.parse, Stepper(run), Start(), chunks), refused, cancelled, child, elapsedMs);
      var ran := !refused && !cancelled && child.Ended?;
      && (exit == AbortedExit <==> refused || (child.Threw? && !cancelled))
      && (exit == CancelledExit <==> !refused && cancelled)
      && (exit == BudgetExit <==> ran && OverBudget(run, evs, child.timedOut, elapsedMs))
      && (exit == PartialExit <==>
            ran && !OverBudget(run, evs, child.timedOut, elapsedMs)
            && (Truthy(LastFailure(evs)) || child.exitCode != 0))
  {
    var evs := Parsed(run.parse, Pieces(Concat(chunks)));
    var st := After(run, evs);
    AtExitIsWhole(run.parse, Stepper(run), Start(), chunks);
    AfterCounts(run, evs);
    AbortedExactly(run, evs);
    SomePrefixOut(run, evs);
    var spend := Spend(Started(evs), LastReported(evs), 0.0, elapsedMs);
    assert FinalSpend(st, elapsedMs) == spend;
    EvaluateExact(run.budget, spend);
  }

  /**
   * `done`, for every output however chunked: the run was allowed and not cancelled, the child
   * ended in time with code 0, no bound was crossed at any point of the output or at its end, and
   * the last reported failure, if any, came without a message.
   */
  lemma {:induction false} DoneExactly(
    run: Run, chunks: seq<string>, refused: bool, cancelled: bool, child: Child, elapsedMs: int)
    ensures var evs := Parsed(run.parse, Pieces(Concat(chunks)));
      var st := AtExit(run.parse, Stepper(run), Start(), chunks);
      Verdict(run, st, refused, cancelled, child, elapsedMs) == DoneExit <==>
        && !refused && !cancelled && child == Ended(false, 0)
        && InBounds(run, evs)
        && Within(run.budget, Spend(Started(evs), LastReported(evs), 0.0, elapsedMs))
        && !Truthy(LastFailure(evs))
  {
    var evs := Parsed(run.parse, Pieces(Concat(chunks)));
    var st := After(run, evs);
    AtExitIsWhole(run.parse, Stepper(run), Start(), chunks);
    AfterCounts(run, evs);
    AbortedExactly(run, evs);
    var spend := Spend(Started(evs), LastReported(evs), 0.0, elapsedMs);
    assert FinalSpend(st, elapsedMs) == spend;
    EvaluateExact(run.budget, spend);
  }

  /** What held of the whole output held of every part of it that had arrived. */
  lemma {:induction false} InBoundsAtEveryPrefix(run: Run, evs: seq<Event>, n: nat)
    requires n <= |evs| && InBounds(run, evs)
    ensures InBounds(run, evs[..n])
    decreases |evs| - n
  {
    if n == |evs| {
      assert evs[..n] == evs;
    } else {
      InBoundsAtEveryPrefix(run, evs, n + 1);
      var longer := evs[..n + 1];
      assert longer[..n] == evs[..n];
      var ev := evs[n];
      if ev.TurnCompleted? && ev.usage.Some? {
        ChecksSnoc(run, Reported(evs[..n]), ev.usage.value);
      }
    }
  }

  /** A failed turn is forgotten when the last failure carries an empty message: the lane ends `done`. */
  lemma SilentFailureIsDone(run: Run, elapsedMs: int)
    requires Within(run.budget, Spend(0, 0, 0.0, elapsedMs))
    ensures var st := After(run, [TurnFailed(Some("model error")), TurnFailed(Some(""))]);
      Verdict(run, st, false, false, Ended(false, 0), elapsedMs) == DoneExit
  {
    var first := [TurnFailed(Some("model error"))];
    var evs := [TurnFailed(Some("model error")), TurnFailed(Some(""))];
    assert evs[..1] == first && first[..0] == [];
    assert After(run, first) == Start().(failure := Some("model error"));
    assert After(run, evs) == Start().(failure := Some(""));
    EvaluateExact(run.budget, Spend(0, 0, 0.0, elapsedMs));
  }

  // ---- the guard is monotone ----

  lemma {:induction false} TokensGrow(usages: seq<Usage>, k: nat)
    requires k <= |usages| && forall u | u in usages :: u.inputTokens >= 0 && u.outputTokens >= 0
    ensures Tokens(usages[..k]) <= Tokens(usages)
    decreases |usages|
  {
    if k == |usages| {
      assert usages[..k] == usages;
    } else {
      var n := |usages| - 1;
      assert usages[n] in usages;
      assert forall u | u in usages[..n] :: u in usages;
      TokensGrow(usages[..n], k);
      assert usages[..n][..k] == usages[..k];
    }
  }

  /** With a clock that does not run backwards and no negative usage, the last check decides for all. */
  lemma LastCheckDecides(run: Run, usages: seq<Usage>)
    requires forall i: nat, j: nat | i <= j :: run.checkAt(i) <= run.checkAt(j)
    requires forall u | u in usages :: u.inputTokens >= 0 && u.outputTokens >= 0
    requires usages != []
    ensures AllPassed(run, usages) <==> CheckPassed(run, usages, |usages|)
  {
    if CheckPassed(run, usages, |usages|) {
      assert usages[..|usages|] == usages;
      forall k | 1 <= k <= |usages| ensures CheckPassed(run, usages, k) {
        TokensGrow(usages, k);
        var spent, all := GuardSpend(run, k, Tokens(usages[..k])), GuardSpend(run, |usages|, Tokens(usages));
        EvaluateMonotone(run.budget, spent, all);
      }
    }
  }
}
