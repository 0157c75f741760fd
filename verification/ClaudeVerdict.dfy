/**
 * What a Claude lane's verdict says about everything its child printed, and what its live budget enforcement
 * comes to with the events its parser can give (packages/lanes/src/stream-json.ts:64-107).
 */
module ClaudeVerdict {
  import opened Order
  import opened LineFraming
  import opened EventLines
  import opened Budget
  import opened ClaudeRunner

  function After(run: Run, evs: seq<Event>): State { Steps(Stepper(run), Start(), evs) }

  // ---- what the child reported ----

  function Taken(evs: seq<Event>): nat {
    if evs == [] then 0 else Taken(evs[..|evs| - 1]) + if evs[|evs| - 1].turn then 1 else 0
  }

  /** The usage that turns themselves reported. */
  function Metered(evs: seq<Event>): seq<Usage> {
    if evs == [] then []
    else
      var before, ev := Metered(evs[..|evs| - 1]), evs[|evs| - 1];
      if ev.turn && ev.usage.Some? then before + [ev.usage.value] else before
  }

  function Dollars(usages: seq<Usage>): real {
    if usages == [] then 0.0 else Dollars(usages[..|usages| - 1]) + Cost(usages[|usages| - 1])
  }

  function LastResult(evs: seq<Event>): Option<Usage> {
    if evs == [] then None
    else if evs[|evs| - 1].isResult && evs[|evs| - 1].usage.Some? then evs[|evs| - 1].usage
    else LastResult(evs[..|evs| - 1])
  }

  /** The last summary a result gave that was not empty. */
  function LastSummary(evs: seq<Event>): Option<string> {
    if evs == [] then None
    else
      var ev := evs[|evs| - 1];
      if ev.isResult && Truthy(ev.summary) then ev.summary else LastSummary(evs[..|evs| - 1])
  }

  /** All the notes that were not empty, in order. */
  function AllNotes(evs: seq<Event>): seq<string> {
    if evs == [] then []
    else AllNotes(evs[..|evs| - 1]) + if Truthy(evs[|evs| - 1].note) then [evs[|evs| - 1].note.value] else []
  }

  /** What the guard knows after these events, at the check of the last turn among them. */
  function Known(run: Run, evs: seq<Event>): Spend {
    Spend(|Metered(evs)|, Tokens(Metered(evs)), Dollars(Metered(evs)), run.checkAt(Taken(evs)) - run.guardStart)
  }

  /** At no turn was the turn bound or any bound on what was known crossed. */
  predicate InBounds(run: Run, evs: seq<Event>) {
    evs == [] ||
    (InBounds(run, evs[..|evs| - 1])
     && (evs[|evs| - 1].turn ==> Taken(evs) <= run.maxTurns && Within(run.budget, Known(run, evs))))
  }

  predicate Counts(st: State, evs: seq<Event>) {
    && st.turns == Taken(evs) && st.usage == LastResult(evs)
    && st.guardTurns == |Metered(evs)| && st.guardTokens == Tokens(Metered(evs)) && st.guardUsd == Dollars(Metered(evs))
  }

  lemma DollarsSnoc(usages: seq<Usage>, u: Usage)
    ensures Dollars(usages + [u]) == Dollars(usages) + Cost(u)
  {
    assert (usages + [u])[..|usages|] == usages;
  }

  lemma {:induction false} AfterCounts(run: Run, evs: seq<Event>)
    ensures Counts(After(run, evs), evs)
  {
    if evs != [] {
      var before, ev := evs[..|evs| - 1], evs[|evs| - 1];
      AfterCounts(run, before);
      if ev.usage.Some? {
        TokensSnoc(Metered(before), ev.usage.value);
        DollarsSnoc(Metered(before), ev.usage.value);
      }
    }
  }

  /** What the lane says of itself: the last summary of a result, and each note as it came. */
  lemma {:induction false} AfterSays(run: Run, evs: seq<Event>)
    ensures After(run, evs).summary == LastSummary(evs) && After(run, evs).notes == AllNotes(evs)
  {
    if evs != [] {
      AfterSays(run, evs[..|evs| - 1]);
    }
  }

  /** The abort is armed exactly when some bound was crossed at some turn, and stays. */
  lemma {:induction false} AbortedExactly(run: Run, evs: seq<Event>)
    ensures After(run, evs).budgetReason == None <==> InBounds(run, evs)
  {
    if evs != [] {
      var before, ev := evs[..|evs| - 1], evs[|evs| - 1];
      AbortedExactly(run, before);
      AfterSpend(run, evs);
      TurnStep(run, After(run, before), ev);
    }
  }

  lemma {:induction false} AfterSpend(run: Run, evs: seq<Event>)
    ensures After(run, evs).turns == Taken(evs) && GuardSpend(run, After(run, evs)) == Known(run, evs)
  {
    AfterCounts(run, evs);
  }

  lemma {:induction false} TurnStep(run: Run, st: State, ev: Event)
    ensures var next := OnEvent(run, st, ev);
      next.budgetReason == None <==>
        && st.budgetReason == None
        && (ev.turn ==> next.turns <= run.maxTurns && Within(run.budget, GuardSpend(run, next)))
  {
    EvaluateExact(run.budget, GuardSpend(run, OnEvent(run, st, ev)));
  }

  /** What the event after these makes the runner stop for: the turn bound is looked at first. */
  predicate StopsFor(run: Run, evs: seq<Event>, ev: Event, r: Reason) {
    && ev.turn
    && if Taken(evs) + 1 > run.maxTurns then r == MaxTurns
       else FirstExceeded(run.budget, Known(run, evs + [ev]), r)
  }

  predicate StoppedAt(run: Run, evs: seq<Event>, n: nat, r: Reason) {
    n < |evs| && InBounds(run, evs[..n]) && StopsFor(run, evs[..n], evs[n], r)
  }

  lemma StopStep(run: Run, st: State, ev: Event, r: Reason)
    ensures var next := OnEvent(run, st, ev);
      next.budgetReason == Some(r) <==>
        || st.budgetReason == Some(r)
        || (st.budgetReason == None && ev.turn
            && if st.turns + 1 > run.maxTurns then r == MaxTurns
               else FirstExceeded(run.budget, GuardSpend(run, next), r))
  {
    EvaluateNames(run.budget, GuardSpend(run, OnEvent(run, st, ev)), r);
  }

  ghost predicate StoppedFor(run: Run, evs: seq<Event>, r: Reason) { exists n: nat :: StoppedAt(run, evs, n, r) }

  lemma StoppedSnoc(run: Run, evs: seq<Event>, ev: Event, r: Reason)
    ensures StoppedFor(run, evs + [ev], r) <==>
      StoppedFor(run, evs, r) || (InBounds(run, evs) && StopsFor(run, evs, ev, r))
  {
    var all := evs + [ev];
    assert all[..|evs|] == evs && all[|evs|] == ev;
    if n: nat :| StoppedAt(run, all, n, r) {
      assert n < |evs| ==> all[..n] == evs[..n] && StoppedAt(run, evs, n, r);
    }
    if n: nat :| StoppedAt(run, evs, n, r) {
      assert all[..n] == evs[..n] && StoppedAt(run, all, n, r);
    }
    if InBounds(run, evs) && StopsFor(run, evs, ev, r) {
      assert StoppedAt(run, all, |evs|, r);
    }
  }

  /** The reason kept is that of the first bound crossed, in the order of events and then of bounds. */
  lemma {:induction false} AbortedFor(run: Run, evs: seq<Event>, r: Reason)
    ensures After(run, evs).budgetReason == Some(r) <==> StoppedFor(run, evs, r)
  {
    if evs != [] {
      var before, ev := evs[..|evs| - 1], evs[|evs| - 1];
      AbortedFor(run, before, r);
      AbortedExactly(run, before);
      AfterSpend(run, before);
      AfterSpend(run, evs);
      StopStep(run, After(run, before), ev, r);
      StoppedSnoc(run, before, ev, r);
      assert evs == before + [ev];
    }
  }

  lemma {:induction false} InBoundsAtEveryPrefix(run: Run, evs: seq<Event>, n: nat)
    requires n <= |evs| && InBounds(run, evs)
    ensures InBounds(run, evs[..n])
    decreases |evs|
  {
    if n == |evs| {
      assert evs[..n] == evs;
    } else {
      InBoundsAtEveryPrefix(run, evs[..|evs| - 1], n);
      assert evs[..|evs| - 1][..n] == evs[..n];
    }
  }

  /** What the result reported, or nothing spent. */
  function FinalUsage(evs: seq<Event>): Usage {
    if LastResult(evs).Some? then LastResult(evs).value else Usage(0, 0, None)
  }

  /** A bound was crossed at some point of the output, or in time, or by what the result reports. */
  predicate OverBudget(run: Run, evs: seq<Event>, timedOut: bool, elapsedMs: int) {
    var last := FinalUsage(evs);
    || timedOut
    || (exists k :: 0 <= k <= |evs| && !InBounds(run, evs[..k]))
    || !Within(run.budget, Spend(Taken(evs), last.inputTokens + last.outputTokens, Cost(last), elapsedMs))
  }

  lemma SomePrefixOut(run: Run, evs: seq<Event>)
    ensures (exists k :: 0 <= k <= |evs| && !InBounds(run, evs[..k])) <==> !InBounds(run, evs)
  {
    assert evs[..|evs|] == evs;
    if k :| 0 <= k <= |evs| && !InBounds(run, evs[..k]) {
      if InBounds(run, evs) {
        InBoundsAtEveryPrefix(run, evs, k);
      }
    }
  }

  /** Every exit, for every output however chunked. */
  lemma {:induction false} ExitsExactly(
    run: Run, chunks: seq<string>, refused: bool, cancelled: bool, child: Child, elapsedMs: int)
    ensures var evs := Parsed(run.parse, Pieces(Concat(chunks)));
      var exit := Verdict(run, AtExit(run.parse, Stepper(run), Start(), chunks), refused, cancelled, child, elapsedMs);
      var ran := !refused && !cancelled && child.Ended?;
      && (exit == AbortedExit <==> refused || (child.Threw? && !cancelled))
      && (exit == CancelledExit <==> !refused && cancelled)
      && (exit == BudgetExit <==> ran && OverBudget(run, evs, child.timedOut, elapsedMs))
      && (exit == PartialExit <==>
            ran && !OverBudget(run, evs, child.timedOut, elapsedMs) && child.exitCode != 0)
  {
    var evs := Parsed(run.parse, Pieces(Concat(chunks)));
    AtExitIsWhole(run.parse, Stepper(run), Start(), chunks);
    AfterCounts(run, evs);
    AbortedExactly(run, evs);
    SomePrefixOut(run, evs);
    EvaluateExact(run.budget, FinalSpend(After(run, evs), elapsedMs));
  }

  /** `done`, for every output however chunked. */
  lemma {:induction false} DoneExactly(
    run: Run, chunks: seq<string>, refused: bool, cancelled: bool, child: Child, elapsedMs: int)
    ensures var evs := Parsed(run.parse, Pieces(Concat(chunks)));
      var last := FinalUsage(evs);
      var st := AtExit(run.parse, Stepper(run), Start(), chunks);
      Verdict(run, st, refused, cancelled, child, elapsedMs) == DoneExit <==>
        && !refused && !cancelled && child == Ended(false, 0)
        && InBounds(run, evs)
        && Within(run.budget, Spend(Taken(evs), last.inputTokens + last.outputTokens, Cost(last), elapsedMs))
  {
    var evs := Parsed(run.parse, Pieces(Concat(chunks)));
    AtExitIsWhole(run.parse, Stepper(run), Start(), chunks);
    AfterCounts(run, evs);
    AbortedExactly(run, evs);
    EvaluateExact(run.budget, FinalSpend(After(run, evs), elapsedMs));
  }

  // ---- what the parser leaves of the live enforcement ----

  /** The parser reports usage on the final result only, and no result is a turn. */
  predicate FromParser(ev: Event) { ev.turn ==> (ev.usage == None && !ev.isResult) }

  predicate AllFromParser(evs: seq<Event>) { forall i | 0 <= i < |evs| :: FromParser(evs[i]) }

  predicate NonNegative(b: Limits) {
    && (b.maxTurns.Some? ==> b.maxTurns.value >= 0) && (b.maxTokens.Some? ==> b.maxTokens.value >= 0)
    && (b.maxUsd.Some? ==> b.maxUsd.value >= 0.0)
  }

  predicate InTime(run: Run, n: nat) {
    run.budget.maxMinutes.Some? ==>
      (run.checkAt(n) - run.guardStart) as real <= run.budget.maxMinutes.value * MS_PER_MINUTE
  }

  lemma {:induction false} NothingMetered(evs: seq<Event>)
    requires AllFromParser(evs)
    ensures Metered(evs) == []
  {
    if evs != [] {
      NothingMetered(evs[..|evs| - 1]);
    }
  }

  lemma WithinUnmetered(b: Limits, elapsedMs: int)
    requires NonNegative(b)
    ensures Within(b, Spend(0, 0, 0.0, elapsedMs)) <==>
      (b.maxMinutes.Some? ==> elapsedMs as real <= b.maxMinutes.value * MS_PER_MINUTE)
  {
    var s := Spend(0, 0, 0.0, elapsedMs);
    assert Within(b, s) <==> !Exceeds(b, s, MaxMinutes);
  }

  /**
   * With what the parser can give, the bounds enforced while the child runs are exactly turns and
   * minutes: whatever tokens or dollars it spends, they are looked at when it has ended.
   */
  lemma {:induction false} LiveBoundsExactly(run: Run, evs: seq<Event>)
    requires AllFromParser(evs) && NonNegative(run.budget)
    ensures After(run, evs).budgetReason == None <==>
      Taken(evs) <= run.maxTurns && forall k | 1 <= k <= Taken(evs) :: InTime(run, k)
  {
    AbortedExactly(run, evs);
    InBoundsExactly(run, evs);
  }

  lemma {:induction false} InBoundsExactly(run: Run, evs: seq<Event>)
    requires AllFromParser(evs) && NonNegative(run.budget)
    ensures InBounds(run, evs) <==> Taken(evs) <= run.maxTurns && forall k | 1 <= k <= Taken(evs) :: InTime(run, k)
  {
    if evs != [] {
      var before, n := evs[..|evs| - 1], Taken(evs);
      InBoundsExactly(run, before);
      NothingMetered(evs);
      WithinUnmetered(run.budget, run.checkAt(n) - run.guardStart);
      assert Known(run, evs) == Spend(0, 0, 0.0, run.checkAt(n) - run.guardStart);
      assert evs[|evs| - 1].turn ==>
          ((forall k | 1 <= k <= n :: InTime(run, k)) <==>
           (forall k | 1 <= k <= Taken(before) :: InTime(run, k)) && InTime(run, n));
    }
  }
}
