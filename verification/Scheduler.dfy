/** The persisted job scheduler (packages/daemon/src/scheduler.ts:101-214), with abstract job bodies. */
module Scheduler {
  import opened Order

  datatype Job = Job(id: string, intervalMinutes: nat, enabled: bool)

  datatype Outcome = Fine | Problem | Error

  datatype RunState = RunState(lastRunAt: Option<int>, lastOutcome: Option<Outcome>)

  type RunStates = map<string, RunState>

  /** A pass under way: when it started, the jobs left, what was persisted then, and whether none has thrown. */
  datatype Pass = Idle | Ticking(start: int, rest: seq<Job>, persistedThen: RunStates, clean: bool)

  /** A recorded run, with the moment its due check passed, the interval it was checked against and how it went. */
  datatype Record = Record(jobId: string, checkedAt: int, at: int, intervalMinutes: nat, outcome: Outcome)

  /** `persisted` outlives the process; everything else but the history is lost by a restart. */
  datatype State = State(
    pass: Pass,
    runtime: RunStates,
    persisted: RunStates,
    lastTickAt: Option<int>,
    lastSuccessAt: Option<int>,
    history: seq<Record>)

  function Last(states: RunStates, id: string): Option<int> {
    if id in states then states[id].lastRunAt else None
  }

  /** `runtime ?? persisted ?? null` for a job's last run. */
  function LastRun(runtime: RunStates, persisted: RunStates, id: string): Option<int> {
    if Last(runtime, id).Some? then Last(runtime, id) else Last(persisted, id)
  }

  function IntervalMs(job: Job): int { job.intervalMinutes * 60_000 }

  predicate Due(last: Option<int>, job: Job, now: int) {
    last.Some? ==> now >= last.value + IntervalMs(job)
  }

  /** A tick is asked for; while one is running nothing happens. */
  function Enter(s: State, now: int, jobs: seq<Job>): State {
    if s.pass != Idle then s
    else s.(pass := Ticking(now, jobs, s.persisted, true), lastTickAt := Some(now))
  }

  function RecordRun(s: State, id: string, outcome: Outcome, at: int, written: bool): State {
    var entry := RunState(Some(at), Some(outcome));
    s.(runtime := s.runtime[id := entry], persisted := if written then s.persisted[id := entry] else s.persisted)
  }

  /** How a job ran: `thrown` stands for an exception. `written` says whether the bookkeeping write succeeded. */
  datatype Attempt = Attempt(now: int, outcome: Outcome, thrown: bool, written: bool)

  /** The next job of the pass. */
  function Advance(s: State, a: Attempt): State
    requires s.pass.Ticking? && s.pass.rest != []
  {
    var job, rest := s.pass.rest[0], s.pass.rest[1..];
    if !job.enabled || !Due(LastRun(s.runtime, s.pass.persistedThen, job.id), job, a.now) then
      s.(pass := s.pass.(rest := rest))
    else
      var outcome := if a.thrown then Error else a.outcome;
      RecordRun(s, job.id, outcome, s.pass.start, a.written).(
        pass := s.pass.(rest := rest, clean := s.pass.clean && !a.thrown),
        history := s.history + [Record(job.id, a.now, s.pass.start, job.intervalMinutes, outcome)])
  }

  function Leave(s: State): State
    requires s.pass.Ticking?
  {
    s.(pass := Idle, lastSuccessAt := if s.pass.clean then Some(s.pass.start) else s.lastSuccessAt)
  }

  datatype Event = Tick(now: int, jobs: seq<Job>) | Resume(attempt: Attempt) | Restart

  /** One step of a process that can be interrupted anywhere between jobs. */
  function Step(s: State, e: Event): State {
    match e
    case Tick(now, jobs) => Enter(s, now, jobs)
    case Resume(a) => if s.pass == Idle then s else if s.pass.rest == [] then Leave(s) else Advance(s, a)
    case Restart => State(Idle, map[], s.persisted, None, None, s.history)
  }

  function After(s: State, events: seq<Event>): State {
    if events == [] then s else Step(After(s, events[..|events| - 1]), events[|events| - 1])
  }

  function Boot(persisted: RunStates): State { State(Idle, map[], persisted, None, None, []) }

  /** A whole tick in one go: `attempts` says how each job of the list goes. */
  function WholePass(s: State, attempts: seq<Attempt>): State
    requires s.pass.Ticking? && |attempts| == |s.pass.rest|
    decreases |attempts|
  {
    if attempts == [] then Leave(s) else WholePass(Advance(s, attempts[0]), attempts[1..])
  }

  class SchedulerStore {
    var ticking: bool
    var runtime: RunStates
    var persisted: RunStates
    var lastTickAt: Option<int>
    var lastSuccessAt: Option<int>
    ghost var pass: Pass
    ghost var history: seq<Record>

    ghost predicate Valid()
      reads this
    {
      ticking <==> pass.Ticking?
    }

    ghost function View(): State
      reads this
    {
      State(pass, runtime, persisted, lastTickAt, lastSuccessAt, history)
    }

    constructor (persisted: RunStates)
      ensures Valid() && View() == Boot(persisted)
    {
      ticking, runtime, this.persisted := false, map[], persisted;
      lastTickAt, lastSuccessAt, pass, history := None, None, Idle, [];
    }

    method DoRecordRun(id: string, outcome: Outcome, at: int, written: bool)
      modifies this`runtime, this`persisted
      ensures View() == RecordRun(old(View()), id, outcome, at, written)
    {
      runtime := runtime[id := RunState(Some(at), Some(outcome))];
      if written {
        persisted := persisted[id := RunState(Some(at), Some(outcome))];
      }
    }

    method DoTick(now: int, jobs: seq<Job>, attempts: seq<Attempt>)
      requires Valid() && |attempts| == |jobs|
      modifies this
      ensures Valid()
      ensures View() == if old(ticking) then old(View()) else WholePass(Enter(old(View()), now, jobs), attempts)
    {
      if ticking {
        return;
      }
      ticking := true;
      lastTickAt := Some(now);
      var clean := true;
      var persistedThen := persisted;
      pass := Ticking(now, jobs, persisted, true);
      ghost var entered := View();
      for i := 0 to |jobs|
        invariant Valid() && ticking && pass == Ticking(now, jobs[i..], persistedThen, clean)
        invariant WholePass(entered, attempts) == WholePass(View(), attempts[i..])
      {
        ghost var before := View();
        assert attempts[i..][1..] == attempts[i + 1..] && jobs[i..][1..] == jobs[i + 1..];
        var job, a := jobs[i], attempts[i];
        var last := LastRun(runtime, persistedThen, job.id);
        if job.enabled && !(last.Some? && a.now < last.value + IntervalMs(job)) {
          if a.thrown {
            clean := false;
          }
          var outcome := if a.thrown then Error else a.outcome;
          DoRecordRun(job.id, outcome, now, a.written);
          history := history + [Record(job.id, a.now, now, job.intervalMinutes, outcome)];
        }
        pass := Ticking(now, jobs[i + 1..], persistedThen, clean);
        assert View() == Advance(before, a);
      }
      if clean {
        lastSuccessAt := Some(now);
      }
      ticking := false;
      pass := Idle;
    }
  }

  // ---- every run, across restarts ----

  /** When a job last ran: by the history, or before it by what was persisted at first boot. */
  function LastKnown(booted: RunStates, history: seq<Record>, id: string): Option<int> {
    if history == [] then Last(booted, id)
    else
      var r := history[|history| - 1];
      if r.jobId == id then Some(r.at) else LastKnown(booted, history[..|history| - 1], id)
  }

  /** Each run passed its due check an interval or more after the job's run before it. */
  predicate Spaced(booted: RunStates, history: seq<Record>) {
    history == [] ||
    (var before, r := history[..|history| - 1], history[|history| - 1];
     && Spaced(booted, before)
     && (LastKnown(booted, before, r.jobId).Some? ==>
           r.checkedAt >= LastKnown(booted, before, r.jobId).value + r.intervalMinutes * 60_000))
  }

  /** What memory, or else the settings, say is the last recorded run, or later. */
  ghost predicate Remembers(booted: RunStates, s: State) {
    && (forall id | id in s.runtime :: s.runtime[id].lastRunAt.Some?)
    && (s.pass.Ticking? ==> forall id | id !in s.runtime :: Last(s.pass.persistedThen, id) == Last(s.persisted, id))
    && (forall id | LastKnown(booted, s.history, id).Some? ::
          AtLeast(LastRun(s.runtime, s.persisted, id), LastKnown(booted, s.history, id).value))
  }

  predicate AtLeast(last: Option<int>, at: int) { last.Some? && last.value >= at }

  /** The settings alone say so: nothing is lost with the process. */
  ghost predicate NothingToForget(booted: RunStates, s: State) {
    forall id | LastKnown(booted, s.history, id).Some? ::
      AtLeast(Last(s.persisted, id), LastKnown(booted, s.history, id).value)
  }

  /** At every restart of a run of events the settings knew each job's last run. */
  ghost predicate SafeRestarts(booted: RunStates, events: seq<Event>) {
    events == [] ||
    (var before, e := events[..|events| - 1], events[|events| - 1];
     SafeRestarts(booted, before) && (e.Restart? ==> NothingToForget(booted, After(Boot(booted), before))))
  }

  lemma LastKnownSnoc(booted: RunStates, history: seq<Record>, r: Record, id: string)
    ensures LastKnown(booted, history + [r], id) == if r.jobId == id then Some(r.at) else LastKnown(booted, history, id)
    ensures Spaced(booted, history + [r]) <==>
      Spaced(booted, history)
      && (LastKnown(booted, history, r.jobId).Some? ==>
            r.checkedAt >= LastKnown(booted, history, r.jobId).value + r.intervalMinutes * 60_000)
  {
    assert (history + [r])[..|history|] == history;
  }

  lemma {:induction false} AdvanceKeeps(booted: RunStates, s: State, a: Attempt)
    requires s.pass.Ticking? && s.pass.rest != []
    requires Remembers(booted, s) && Spaced(booted, s.history)
    ensures Remembers(booted, Advance(s, a)) && Spaced(booted, Advance(s, a).history)
  {
    var job, next := s.pass.rest[0], Advance(s, a);
    assert LastRun(s.runtime, s.pass.persistedThen, job.id) == LastRun(s.runtime, s.persisted, job.id);
    if next.history != s.history {
      RecordKeeps(booted, s, a);
    }
  }

  lemma {:induction false} RecordKeeps(booted: RunStates, s: State, a: Attempt)
    requires s.pass.Ticking? && s.pass.rest != [] && Remembers(booted, s) && Spaced(booted, s.history)
    requires s.pass.rest[0].enabled && Due(LastRun(s.runtime, s.persisted, s.pass.rest[0].id), s.pass.rest[0], a.now)
    requires Advance(s, a).history != s.history
    ensures Remembers(booted, Advance(s, a)) && Spaced(booted, Advance(s, a).history)
  {
    var job, outcome := s.pass.rest[0], if a.thrown then Error else a.outcome;
    var r := Record(job.id, a.now, s.pass.start, job.intervalMinutes, outcome);
    var next := Advance(s, a);
    assert next.history == s.history + [r];
    forall id | LastKnown(booted, next.history, id).Some?
      ensures AtLeast(LastRun(next.runtime, next.persisted, id), LastKnown(booted, next.history, id).value)
    {
      LastKnownSnoc(booted, s.history, r, id);
      RecordedIsLast(s, job.id, outcome, s.pass.start, a.written, id);
    }
    LastKnownSnoc(booted, s.history, r, job.id);
  }

  lemma {:induction false} RecordedIsLast(s: State, jobId: string, outcome: Outcome, at: int, written: bool, id: string)
    ensures var next := RecordRun(s, jobId, outcome, at, written);
      LastRun(next.runtime, next.persisted, id) ==
        if id == jobId then Some(at) else LastRun(s.runtime, s.persisted, id)
  {
  }

  lemma {:induction false} StepKeeps(booted: RunStates, s: State, e: Event)
    requires Remembers(booted, s) && Spaced(booted, s.history) && (e.Restart? ==> NothingToForget(booted, s))
    ensures Remembers(booted, Step(s, e)) && Spaced(booted, Step(s, e).history)
  {
    if e.Resume? && s.pass.Ticking? && s.pass.rest != [] {
      AdvanceKeeps(booted, s, e.attempt);
    }
  }

  lemma {:induction false} RunsRemember(booted: RunStates, events: seq<Event>)
    requires SafeRestarts(booted, events)
    ensures var s := After(Boot(booted), events); Remembers(booted, s) && Spaced(booted, s.history)
  {
    if events != [] {
      var before := events[..|events| - 1];
      RunsRemember(booted, before);
      StepKeeps(booted, After(Boot(booted), before), events[|events| - 1]);
    }
  }

  /**
   * Over every mix of ticks, interruptions, lost writes and restarts: as long as no restart finds the settings
   * behind, a job's due check passes only an interval or more after its last recorded run, in
   * whichever process that was.
   */
  lemma {:induction false} RunsAreSpaced(booted: RunStates, events: seq<Event>)
    requires SafeRestarts(booted, events)
    ensures Spaced(booted, After(Boot(booted), events).history)
  {
    RunsRemember(booted, events);
  }

  /** Recorded runs are an interval apart exactly as far as the clock stood still since the tick began. */
  lemma {:induction false} RecordedRunsAreSpaced(
    booted: RunStates, events: seq<Event>, history: seq<Record>, r: Record, drift: int)
    requires SafeRestarts(booted, events)
    requires After(Boot(booted), events).history == history + [r] && r.checkedAt <= r.at + drift
    requires LastKnown(booted, history, r.jobId).Some?
    ensures r.at >= LastKnown(booted, history, r.jobId).value + r.intervalMinutes * 60_000 - drift
  {
    RunsAreSpaced(booted, events);
    LastKnownSnoc(booted, history, r, r.jobId);
  }

  // ---- which restarts are safe ----

  predicate Written(e: Event) { e.Resume? ==> e.attempt.written }

  /** With successful writes the settings always know exactly the last run. */
  lemma {:induction false} WritesAreRemembered(booted: RunStates, events: seq<Event>)
    requires forall i | 0 <= i < |events| :: Written(events[i])
    ensures SafeRestarts(booted, events)
    ensures forall id ::
      Last(After(Boot(booted), events).persisted, id) == LastKnown(booted, After(Boot(booted), events).history, id)
  {
    if events != [] {
      var before, e := events[..|events| - 1], events[|events| - 1];
      WritesAreRemembered(booted, before);
      var s := After(Boot(booted), before);
      var next := Step(s, e);
      if next.history != s.history {
        var r := next.history[|s.history|];
        assert next.history == s.history + [r];
        forall id ensures Last(next.persisted, id) == LastKnown(booted, next.history, id) {
          LastKnownSnoc(booted, s.history, r, id);
        }
      }
    }
  }

  /** Every continuation of a run that does not restart again keeps to the spacing. */
  ghost predicate StaysSpaced(booted: RunStates, events: seq<Event>) {
    forall more: seq<Event> | NoRestart(more) :: Spaced(booted, After(Boot(booted), events + more).history)
  }

  predicate NoRestart(events: seq<Event>) { forall i | 0 <= i < |events| :: !events[i].Restart? }

  lemma {:induction false} MoreIsSafe(booted: RunStates, events: seq<Event>, more: seq<Event>)
    requires SafeRestarts(booted, events) && NoRestart(more)
    ensures SafeRestarts(booted, events + more)
  {
    if more == [] {
      assert events + more == events;
    } else {
      MoreIsSafe(booted, events, more[..|more| - 1]);
      assert (events + more)[..|events + more| - 1] == events + more[..|more| - 1];
    }
  }

  /**
   * A restart is safe exactly when the settings know each job's last run, or a later one: then no continuation runs
   * a job early; otherwise some continuation does, within one tick.
   */
  lemma {:induction false} RestartIsSafeExactly(booted: RunStates, events: seq<Event>)
    requires SafeRestarts(booted, events)
    ensures StaysSpaced(booted, events + [Restart]) <==> NothingToForget(booted, After(Boot(booted), events))
  {
    var s, all := After(Boot(booted), events), events + [Restart];
    assert all[..|all| - 1] == events;
    if NothingToForget(booted, s) {
      forall more: seq<Event> | NoRestart(more) ensures Spaced(booted, After(Boot(booted), all + more).history) {
        MoreIsSafe(booted, all, more);
        RunsAreSpaced(booted, all + more);
      }
    } else {
      var id :| LastKnown(booted, s.history, id).Some?
        && !AtLeast(Last(s.persisted, id), LastKnown(booted, s.history, id).value);
      var more := ForgottenRunsEarly(booted, events, id);
    }
  }

  /** The job that was forgotten, every minute, at the first moment it seems due. */
  lemma {:induction false} ForgottenRunsEarly(booted: RunStates, events: seq<Event>, id: string)
    returns (more: seq<Event>)
    requires
      var s := After(Boot(booted), events);
      LastKnown(booted, s.history, id).Some?
      && !AtLeast(Last(s.persisted, id), LastKnown(booted, s.history, id).value)
    ensures NoRestart(more) && !Spaced(booted, After(Boot(booted), events + [Restart] + more).history)
  {
    var s := After(Boot(booted), events);
    var last, seen := LastKnown(booted, s.history, id).value, Last(s.persisted, id);
    var now := if seen.Some? && seen.value + 60_000 > last then seen.value + 60_000 else last;
    var job, attempt := Job(id, 1, true), Attempt(now, Fine, false, true);
    more := [Tick(now, [job]), Resume(attempt)];
    var all := events + [Restart] + more;
    AfterThree(Boot(booted), events, Restart, more[0], more[1]);
    var ticking := Step(Step(s, Restart), more[0]);
    var r := Record(id, now, now, 1, Fine);
    assert Advance(ticking, attempt).history == s.history + [r];
    LastKnownSnoc(booted, s.history, r, id);
  }

  lemma {:induction false} AfterThree(s: State, events: seq<Event>, a: Event, b: Event, c: Event)
    ensures After(s, events + [a] + [b, c]) == Step(Step(Step(After(s, events), a), b), c)
  {
    var one := events + [a];
    var two := one + [b];
    assert one + [b, c] == two + [c];
    AfterSnoc(s, events, a);
    AfterSnoc(s, one, b);
    AfterSnoc(s, two, c);
  }

  lemma {:induction false} AfterSnoc(s: State, events: seq<Event>, e: Event)
    ensures After(s, events + [e]) == Step(After(s, events), e)
  {
    assert (events + [e])[..|events|] == events;
  }

  /** So a single lost write is enough: the run it recorded is forgotten, and the job runs again at once. */
  lemma {:induction false} LostWriteRunsAgain(job: Job, at: int)
    requires job.enabled
    ensures var events := [Tick(at, [job]), Resume(Attempt(at, Fine, false, false))];
      SafeRestarts(map[], events) && !StaysSpaced(map[], events + [Restart])
  {
    var events := [Tick(at, [job]), Resume(Attempt(at, Fine, false, false))];
    var s := After(Boot(map[]), events);
    var r := Record(job.id, at, at, job.intervalMinutes, Fine);
    AfterSnoc(Boot(map[]), [], events[0]);
    AfterSnoc(Boot(map[]), [events[0]], events[1]);
    assert [] + [events[0]] == [events[0]] && [events[0]] + [events[1]] == events;
    assert s.history == [] + [r] && s.persisted == map[];
    LastKnownSnoc(map[], [], r, job.id);
    RestartIsSafeExactly(map[], events);
  }

  // ---- and a job that is due does run ----

  /** The settings know exactly each job's last run. */
  ghost predicate SettingsLevel(booted: RunStates, s: State) {
    forall id :: Last(s.persisted, id) == LastKnown(booted, s.history, id)
  }

  /** At every restart they did; in between, writes may have been lost. */
  ghost predicate LevelRestarts(booted: RunStates, events: seq<Event>) {
    events == [] ||
    (var before, e := events[..|events| - 1], events[|events| - 1];
     LevelRestarts(booted, before) && (e.Restart? ==> SettingsLevel(booted, After(Boot(booted), before))))
  }

  /** What memory, or else the settings, say is exactly the last run. */
  ghost predicate Knows(booted: RunStates, s: State) {
    && (forall id | id in s.runtime :: s.runtime[id].lastRunAt.Some?)
    && (s.pass.Ticking? ==> forall id | id !in s.runtime :: Last(s.pass.persistedThen, id) == Last(s.persisted, id))
    && (forall id :: LastRun(s.runtime, s.persisted, id) == LastKnown(booted, s.history, id))
  }

  /** By the history alone: never run, or its interval has passed since it last did. */
  predicate MustRun(booted: RunStates, s: State, job: Job, now: int) {
    var last := LastKnown(booted, s.history, job.id);
    job.enabled && (last == None || now >= last.value + job.intervalMinutes * 60_000)
  }

  function RecordOf(start: int, job: Job, a: Attempt): Record {
    Record(job.id, a.now, start, job.intervalMinutes, if a.thrown then Error else a.outcome)
  }

  lemma KnownAdvance(booted: RunStates, s: State, a: Attempt)
    requires Knows(booted, s) && s.pass.Ticking? && s.pass.rest != []
    ensures var job, next := s.pass.rest[0], Advance(s, a);
      && next.history == (if MustRun(booted, s, job, a.now) then s.history + [RecordOf(s.pass.start, job, a)]
                          else s.history)
      && next.pass.Ticking? && next.pass.start == s.pass.start && next.pass.rest == s.pass.rest[1..]
  {
    var job := s.pass.rest[0];
    assert LastRun(s.runtime, s.pass.persistedThen, job.id) == LastRun(s.runtime, s.persisted, job.id);
  }

  lemma AdvanceKnows(booted: RunStates, s: State, a: Attempt)
    requires Knows(booted, s) && s.pass.Ticking? && s.pass.rest != []
    ensures Knows(booted, Advance(s, a))
  {
    var job, next := s.pass.rest[0], Advance(s, a);
    KnownAdvance(booted, s, a);
    if MustRun(booted, s, job, a.now) {
      var r := RecordOf(s.pass.start, job, a);
      forall id ensures LastRun(next.runtime, next.persisted, id) == LastKnown(booted, next.history, id) {
        LastKnownSnoc(booted, s.history, r, id);
        RecordedIsLast(s, job.id, r.outcome, s.pass.start, a.written, id);
      }
    }
  }

  lemma {:induction false} RunsKnow(booted: RunStates, events: seq<Event>)
    requires LevelRestarts(booted, events)
    ensures Knows(booted, After(Boot(booted), events))
  {
    if events != [] {
      var before, e := events[..|events| - 1], events[|events| - 1];
      var s := After(Boot(booted), before);
      RunsKnow(booted, before);
      if e.Resume? && s.pass.Ticking? && s.pass.rest != [] {
        AdvanceKnows(booted, s, e.attempt);
      }
    }
  }

  /** With successful writes every restart is level. */
  lemma {:induction false} WritesKeepLevel(booted: RunStates, events: seq<Event>)
    requires forall i | 0 <= i < |events| :: Written(events[i])
    ensures LevelRestarts(booted, events)
  {
    if events != [] {
      WritesKeepLevel(booted, events[..|events| - 1]);
      WritesAreRemembered(booted, events[..|events| - 1]);
    }
  }

  /**
   * Over every run of events whose restarts found the settings level: when its turn in a pass comes, a job runs, and
   * its run is recorded under the moment of the tick, exactly when it is enabled and either never ran or last ran
   * its interval ago. A tick that finds no pass under way takes up every job of the list.
   */
  lemma {:induction false} JobsRunExactly(booted: RunStates, events: seq<Event>, e: Event)
    requires LevelRestarts(booted, events)
    ensures var s := After(Boot(booted), events);
      var next := Step(s, e);
      && (e.Tick? && s.pass == Idle ==>
            next.pass.Ticking? && next.pass.rest == e.jobs && next.pass.start == e.now && next.history == s.history)
      && (e.Resume? && s.pass.Ticking? && s.pass.rest != [] ==>
            && next.pass.Ticking? && next.pass.start == s.pass.start && next.pass.rest == s.pass.rest[1..]
            && next.history == (if MustRun(booted, s, s.pass.rest[0], e.attempt.now)
                                then s.history + [RecordOf(s.pass.start, s.pass.rest[0], e.attempt)] else s.history))
      && (!(e.Resume? && s.pass.Ticking? && s.pass.rest != []) ==> next.history == s.history)
  {
    var s := After(Boot(booted), events);
    RunsKnow(booted, events);
    if e.Resume? && s.pass.Ticking? && s.pass.rest != [] {
      KnownAdvance(booted, s, e.attempt);
    }
  }

  // ---- what is remembered of a run ----

  /** The last record of a job. */
  function LastRecord(history: seq<Record>, id: string): Option<Record> {
    if history == [] then None
    else if history[|history| - 1].jobId == id then Some(history[|history| - 1])
    else LastRecord(history[..|history| - 1], id)
  }

  /** The state kept of a job is when its last recorded run was, and how it went. */
  predicate Keeps(states: RunStates, history: seq<Record>, id: string) {
    var r := LastRecord(history, id);
    id in states && r.Some? && states[id] == RunState(Some(r.value.at), Some(r.value.outcome))
  }

  lemma LastRecordSnoc(history: seq<Record>, r: Record, id: string)
    ensures LastRecord(history + [r], id) == if r.jobId == id then Some(r) else LastRecord(history, id)
  {
    assert (history + [r])[..|history|] == history;
  }

  lemma MemoryStep(s: State, e: Event, id: string)
    requires id in s.runtime ==> Keeps(s.runtime, s.history, id)
    ensures id in Step(s, e).runtime ==> Keeps(Step(s, e).runtime, Step(s, e).history, id)
    ensures Written(e) && LastRecord(s.history, id).Some? ==>
      Keeps(s.persisted, s.history, id) ==> Keeps(Step(s, e).persisted, Step(s, e).history, id)
    ensures Written(e) && LastRecord(s.history, id) == None && LastRecord(Step(s, e).history, id).Some? ==>
      Keeps(Step(s, e).persisted, Step(s, e).history, id)
  {
    var next := Step(s, e);
    if next.history != s.history {
      var r := next.history[|s.history|];
      assert next.history == s.history + [r];
      LastRecordSnoc(s.history, r, id);
    }
  }

  /** Over every run of events memory keeps the moment and outcome of the last recorded run since the last restart. */
  lemma {:induction false} MemoryIsLastRecord(booted: RunStates, events: seq<Event>, id: string)
    ensures var s := After(Boot(booted), events); id in s.runtime ==> Keeps(s.runtime, s.history, id)
  {
    if events != [] {
      var before := events[..|events| - 1];
      MemoryIsLastRecord(booted, before, id);
      MemoryStep(After(Boot(booted), before), events[|events| - 1], id);
    }
  }

  /** With successful writes so do the settings, restarts or not. */
  lemma {:induction false} SettingsAreLastRecord(booted: RunStates, events: seq<Event>, id: string)
    requires forall i | 0 <= i < |events| :: Written(events[i])
    ensures var s := After(Boot(booted), events);
      LastRecord(s.history, id).Some? ==> Keeps(s.persisted, s.history, id)
  {
    if events != [] {
      var before := events[..|events| - 1];
      SettingsAreLastRecord(booted, before, id);
      MemoryIsLastRecord(booted, before, id);
      MemoryStep(After(Boot(booted), before), events[|events| - 1], id);
    }
  }

  // ---- the two signals ----

  predicate Signals(s: State) {
    && (s.pass.Ticking? ==> s.lastTickAt == Some(s.pass.start))
    && (s.lastSuccessAt.Some? ==> s.lastTickAt.Some? && s.lastSuccessAt.value <= s.lastTickAt.value)
  }

  predicate Forward(s: State, e: Event) {
    e.Tick? && s.lastTickAt.Some? ==> s.lastTickAt.value <= e.now
  }

  ghost predicate AllForward(booted: RunStates, events: seq<Event>) {
    events == [] ||
    (var before, e := events[..|events| - 1], events[|events| - 1];
     AllForward(booted, before) && Forward(After(Boot(booted), before), e))
  }

  /** The success signal never runs ahead of the tick signal. */
  lemma {:induction false} SuccessFollowsTicks(booted: RunStates, events: seq<Event>)
    requires AllForward(booted, events)
    ensures Signals(After(Boot(booted), events))
  {
    if events != [] {
      SuccessFollowsTicks(booted, events[..|events| - 1]);
    }
  }

  /** And a whole pass moves it exactly when no run it recorded threw; `Error` is what a thrown run is recorded as. */
  lemma {:induction false} SuccessMeansClean(s: State, attempts: seq<Attempt>)
    requires s.pass.Ticking? && |attempts| == |s.pass.rest|
    requires forall i | 0 <= i < |attempts| :: attempts[i].outcome != Error
    ensures var done := WholePass(s, attempts);
      && s.history <= done.history
      && done.lastSuccessAt ==
         if s.pass.clean && (forall i | |s.history| <= i < |done.history| :: done.history[i].outcome != Error)
         then Some(s.pass.start) else s.lastSuccessAt
    decreases |attempts|
  {
    if attempts != [] {
      var next := Advance(s, attempts[0]);
      SuccessMeansClean(next, attempts[1..]);
      assert next.history != s.history ==> WholePass(s, attempts).history[|s.history|] == next.history[|s.history|];
    }
  }
}
