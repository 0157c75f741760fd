/** Lane budget accounting (packages/lanes/src/budget.ts). */
module Budget {
  import opened Order

  datatype Reason = MaxTurns | MaxTokens | MaxUsd | MaxMinutes

  datatype Limits = Limits(
    maxTurns: Option<int>,
    maxTokens: Option<int>,
    maxUsd: Option<real>,
    maxMinutes: Option<real>)

  datatype Spend = Spend(turns: int, tokens: int, usd: real, elapsedMs: int)

  const MS_PER_MINUTE := 60_000.0

  predicate Exceeds(b: Limits, s: Spend, r: Reason) {
    match r
    case MaxTurns => b.maxTurns.Some? && s.turns > b.maxTurns.value
    case MaxTokens => b.maxTokens.Some? && s.tokens > b.maxTokens.value
    case MaxUsd => b.maxUsd.Some? && s.usd > b.maxUsd.value
    case MaxMinutes => b.maxMinutes.Some? && s.elapsedMs as real > b.maxMinutes.value * MS_PER_MINUTE
  }

  function Evaluate(b: Limits, s: Spend): Option<Reason> {
    if b.maxTurns.Some? && s.turns > b.maxTurns.value then Some(MaxTurns)
    else if b.maxTokens.Some? && s.tokens > b.maxTokens.value then Some(MaxTokens)
    else if b.maxUsd.Some? && s.usd > b.maxUsd.value then Some(MaxUsd)
    else if b.maxMinutes.Some? && s.elapsedMs as real > b.maxMinutes.value * MS_PER_MINUTE then Some(MaxMinutes)
    else None
  }

  predicate Within(b: Limits, s: Spend) { forall r: Reason :: !Exceeds(b, s, r) }

  /** Of two bounds crossed at once, the one that is named. */
  predicate Sooner(q: Reason, r: Reason) {
    match r
    case MaxTurns => false
    case MaxTokens => q == MaxTurns
    case MaxUsd => q == MaxTurns || q == MaxTokens
    case MaxMinutes => q != MaxMinutes
  }

  predicate FirstExceeded(b: Limits, s: Spend, r: Reason) {
    Exceeds(b, s, r) && forall q: Reason | Sooner(q, r) :: !Exceeds(b, s, q)
  }

  /** A verdict names a bound that is really exceeded, and there is none exactly within budget. */
  lemma EvaluateExact(b: Limits, s: Spend)
    ensures Evaluate(b, s) == None <==> Within(b, s)
    ensures Evaluate(b, s).Some? ==> Exceeds(b, s, Evaluate(b, s).value)
  {
    if Evaluate(b, s).Some? {
      assert Exceeds(b, s, Evaluate(b, s).value);
    }
  }

  /** The bound named is the first of those exceeded: turns, then tokens, then dollars, then minutes. */
  lemma EvaluateNames(b: Limits, s: Spend, r: Reason)
    ensures Evaluate(b, s) == Some(r) <==> FirstExceeded(b, s, r)
  {
    var e := Evaluate(b, s);
    if e.Some? && e.value != r {
      assert Sooner(e.value, r) || Sooner(r, e.value);
    }
  }

  predicate NoLess(s: Spend, t: Spend) {
    s.turns <= t.turns && s.tokens <= t.tokens && s.usd <= t.usd && s.elapsedMs <= t.elapsedMs
  }

  /** Spending more never brings a lane back within budget. */
  lemma EvaluateMonotone(b: Limits, s: Spend, t: Spend)
    requires NoLess(s, t) && Within(b, t)
    ensures Within(b, s)
  {
    forall r: Reason ensures !Exceeds(b, s, r) {
      assert !Exceeds(b, t, r);
    }
  }

  datatype Usage = Usage(inputTokens: int, outputTokens: int, usd: Option<real>)

  /** All the tokens of the turns so far. */
  function Tokens(usages: seq<Usage>): int {
    if usages == [] then 0
    else
      var u := usages[|usages| - 1];
      Tokens(usages[..|usages| - 1]) + u.inputTokens + u.outputTokens
  }

  lemma {:induction false} TokensSnoc(usages: seq<Usage>, u: Usage)
    ensures Tokens(usages + [u]) == Tokens(usages) + u.inputTokens + u.outputTokens
  {
    assert (usages + [u])[..|usages|] == usages;
  }

  class BudgetGuard {
    const budget: Limits
    const startedAt: int
    var turns: int
    var tokens: int
    var usd: real

    ghost function Spent(now: int): Spend
      reads this
    {
      Spend(turns, tokens, usd, now - startedAt)
    }

    constructor (budget: Limits, startedAt: int)
      ensures this.budget == budget && this.startedAt == startedAt
      ensures turns == 0 && tokens == 0 && usd == 0.0
    {
      this.budget := budget;
      this.startedAt := startedAt;
      turns, tokens, usd := 0, 0, 0.0;
    }

    method RecordTurn(u: Usage)
      modifies this
      ensures turns == old(turns) + 1
      ensures tokens == old(tokens) + u.inputTokens + u.outputTokens
      ensures usd == old(usd) + (if u.usd.Some? then u.usd.value else 0.0)
    {
      turns := turns + 1;
      tokens := tokens + (u.inputTokens + u.outputTokens);
      usd := usd + (if u.usd.Some? then u.usd.value else 0.0);
    }

    method Exceeded(now: int) returns (r: Option<Reason>)
      ensures r == Evaluate(budget, Spent(now))
      ensures r == None <==> Within(budget, Spent(now))
    {
      EvaluateExact(budget, Spent(now));
      r := Evaluate(budget, Spend(turns, tokens, usd, now - startedAt));
    }
  }
}
