/**
 * The panel against the store: the panel folds the events of the conversations it has opened, while rows of all the
 * project's lanes, read by requests that overtake or lag behind the stream, are merged in between.
 */
module LaneConvergence {
  import opened Order
  import opened LanesPanel

  predicate Touches(ev: Event) { !ev.change.NotOfALane? && !ev.change.Pane? }

  /** As the kernel writes lane events: the lane is in the envelope, and in the payload unless it is progress. */
  predicate Addressed(ev: Event) {
    Truthy(ev.envelope) && (ev.change.Progress? || ev.payload == ev.envelope)
  }

  /** A log the kernel can have written: fresh event ids, and a lane spawned once, before anything else about it. */
  ghost predicate WellFormed(log: seq<Event>) {
    && (forall i, j | 0 <= i < j < |log| :: log[i].id != log[j].id)
    && (forall i | 0 <= i < |log| :: log[i].id != "")
    && (forall i | 0 <= i < |log| && Touches(log[i]) ::
          Addressed(log[i]) && (log[i].change.Spawn? <==> log[i].envelope.value !in TableOf(log[..i])))
  }

  predicate Stored(log: seq<Event>, n: nat, id: string) {
    n <= |log| && id in TableOf(log[..n])
  }

  /** A lane's row as the store had it at some moment; lanes the log never spawns may have any row. */
  ghost predicate RowOf(row: Row, log: seq<Event>) {
    Stored(log, |log|, row.id) ==> exists k: nat :: Stored(log, k, row.id) && TableOf(log[..k])[row.id] == row
  }

  ghost predicate RowsOf(rows: seq<Row>, log: seq<Event>) {
    Distinct(Ids(rows)) && forall i | 0 <= i < |rows| :: RowOf(rows[i], log)
  }

  /** The next event of the log, one that was sent before, or rows of the project. */
  datatype Step = Next | Again(index: nat) | Hydrate(rows: seq<Row>)

  function Consumed(steps: seq<Step>): nat {
    if steps == [] then 0
    else Consumed(steps[..|steps| - 1]) + if steps[|steps| - 1].Next? then 1 else 0
  }

  ghost predicate Possible(log: seq<Event>, steps: seq<Step>) {
    steps == [] ||
    (var before, step := steps[..|steps| - 1], steps[|steps| - 1];
     && Possible(log, before)
     && match step
        case Next => Consumed(before) < |log|
        case Again(i) => i < Consumed(before)
        case Hydrate(rows) => RowsOf(rows, log))
  }

  lemma ConsumedWithin(log: seq<Event>, steps: seq<Step>)
    requires Possible(log, steps)
    ensures Consumed(steps) <= |log|
  {
    if steps != [] {
      ConsumedWithin(log, steps[..|steps| - 1]);
    }
  }

  ghost function Panel(log: seq<Event>, steps: seq<Step>): Lanes
    requires Possible(log, steps)
  {
    if steps == [] then NoLanes
    else
      var before, step := steps[..|steps| - 1], steps[|steps| - 1];
      ConsumedWithin(log, before);
      match step
      case Next => Reduce(Panel(log, before), log[Consumed(before)])
      case Again(i) => Reduce(Panel(log, before), log[i])
      case Hydrate(rows) => Merge(Panel(log, before), rows)
  }

  // ---- what only events carry ----

  /** The panel has folded exactly what `folded` has; lanes known from rows alone carry no trace of events. */
  ghost predicate SameTrace(s: Lanes, folded: Lanes) {
    && s.seen == folded.seen
    && (forall id | id in folded.byId ::
          id in s.byId && s.byId[id].progress == folded.byId[id].progress
          && s.byId[id].rev == folded.byId[id].rev && s.byId[id].reason == folded.byId[id].reason)
    && (forall id | id in s.byId && id !in folded.byId ::
          s.byId[id].progress == [] && s.byId[id].rev == 0 && s.byId[id].reason == None)
  }

  lemma {:induction false} SeenExactly(log: seq<Event>, n: nat, id: string)
    requires n <= |log| && WellFormed(log)
    ensures id in Fold(NoLanes, log[..n]).seen <==> exists i :: 0 <= i < n && Touches(log[i]) && log[i].id == id
  {
    if n > 0 {
      SeenExactly(log, n - 1, id);
      assert log[..n][..n - 1] == log[..n - 1];
      var seen := Fold(NoLanes, log[..n - 1]).seen;
      assert Fold(NoLanes, log[..n]).seen == if Touches(log[n - 1]) then seen + {log[n - 1].id} else seen;
    }
  }

  lemma {:induction false} MergeSameTrace(s: Lanes, folded: Lanes, rows: seq<Row>)
    requires SameTrace(s, folded)
    ensures SameTrace(Merge(s, rows), folded)
  {
    var h := FromRows(rows);
    forall id | id in h.byId ensures h.byId[id].rev == 0 && h.byId[id].progress == [] && h.byId[id].reason == None {
      ViewsMeans(ByCreation(rows), id);
    }
  }

  lemma EventSameTrace(s: Lanes, folded: Lanes, ev: Event)
    requires SameTrace(s, folded)
    ensures SameTrace(Reduce(s, ev), Reduce(folded, ev))
  {
  }

  /** What was sent before changes nothing; what is next is new. */
  lemma SentBefore(log: seq<Event>, n: nat, s: Lanes, i: nat)
    requires WellFormed(log) && i < |log| && n <= |log| && s.seen == Fold(NoLanes, log[..n]).seen
    ensures i < n ==> Reduce(s, log[i]) == s
    ensures i >= n ==> log[i].id !in s.seen
  {
    SeenExactly(log, n, log[i].id);
  }

  lemma {:induction false} PanelCoherent(log: seq<Event>, steps: seq<Step>)
    requires Possible(log, steps)
    ensures Coherent(Panel(log, steps))
  {
    if steps != [] {
      var before, step := steps[..|steps| - 1], steps[|steps| - 1];
      ConsumedWithin(log, before);
      PanelCoherent(log, before);
      match step
      case Next => ReduceCoherent(Panel(log, before), log[Consumed(before)]);
      case Again(i) => ReduceCoherent(Panel(log, before), log[i]);
      case Hydrate(rows) => MergeCoherent(Panel(log, before), rows);
    }
  }

  /** Merges and redeliveries are invisible to progress, revision, reason and the events already seen. */
  lemma {:induction false} MergesLeaveTheTrace(log: seq<Event>, steps: seq<Step>)
    requires WellFormed(log) && Possible(log, steps)
    ensures Consumed(steps) <= |log|
    ensures SameTrace(Panel(log, steps), Fold(NoLanes, log[..Consumed(steps)]))
  {
    ConsumedWithin(log, steps);
    if steps != [] {
      var before, step := steps[..|steps| - 1], steps[|steps| - 1];
      var n := Consumed(before);
      MergesLeaveTheTrace(log, before);
      match step
      case Next =>
        assert log[..n + 1][..n] == log[..n];
        EventSameTrace(Panel(log, before), Fold(NoLanes, log[..n]), log[n]);
      case Again(i) =>
        SentBefore(log, n, Panel(log, before), i);
      case Hydrate(rows) =>
        MergeSameTrace(Panel(log, before), Fold(NoLanes, log[..n]), rows);
    }
  }

  // ---- status: what the store says ----

  function StoredStatus(log: seq<Event>, n: nat, id: string): Status
    requires Stored(log, n, id)
  {
    TableOf(log[..n])[id].status
  }

  predicate About(ev: Event, id: string) { Touches(ev) && ev.envelope == Some(id) }

  /** An event that fixes the status whatever it was. */
  predicate Fixes(ev: Event, id: string) {
    About(ev, id) && (ev.change.MergeReport? || ev.change.Complete? || ev.change.Abort?)
  }

  /** One event at the store. */
  lemma StoreStep(log: seq<Event>, n: nat, id: string)
    requires WellFormed(log) && n < |log|
    ensures Stored(log, n + 1, id) <==> Stored(log, n, id) || (About(log[n], id) && log[n].change.Spawn?)
    ensures Stored(log, n, id) ==>
      StoredStatus(log, n + 1, id) ==
        if About(log[n], id) then StatusAfter(StoredStatus(log, n, id), log[n].change) else StoredStatus(log, n, id)
    ensures Stored(log, n + 1, id) && !Stored(log, n, id) ==> StoredStatus(log, n + 1, id) == Spawned
    ensures About(log[n], id) ==> (log[n].change.Spawn? <==> !Stored(log, n, id))
  {
    assert log[..n + 1][..n] == log[..n];
  }

  lemma {:induction false} StoredForGood(log: seq<Event>, m: nat, n: nat, id: string)
    requires WellFormed(log) && m <= n <= |log| && Stored(log, m, id)
    ensures Stored(log, n, id)
    decreases n
  {
    if m < n {
      StoredForGood(log, m, n - 1, id);
      StoreStep(log, n - 1, id);
    }
  }

  /** Something later in the log will fix the status. */
  ghost predicate FixPending(log: seq<Event>, m: nat, n: nat, id: string) {
    exists i :: m <= i < n <= |log| && Fixes(log[i], id)
  }

  ghost predicate ProgressPending(log: seq<Event>, m: nat, n: nat, id: string) {
    exists i :: m <= i < n <= |log| && About(log[i], id) && log[i].change.Progress?
  }

  /** With nothing left to fix it, the status can only start running. */
  lemma {:induction false} Unfixed(log: seq<Event>, m: nat, k: nat, id: string)
    requires WellFormed(log) && m <= k <= |log| && Stored(log, m, id) && !FixPending(log, m, |log|, id)
    ensures Stored(log, k, id)
    ensures
      || StoredStatus(log, k, id) == StoredStatus(log, m, id)
      || (StoredStatus(log, m, id) == Spawned && StoredStatus(log, k, id) == Running
          && ProgressPending(log, m, |log|, id))
    decreases k
  {
    if m < k {
      Unfixed(log, m, k - 1, id);
      StoreStep(log, k - 1, id);
    }
  }

  // ---- status: what the panel shows ----

  /** The stored status never falls below where it once was. */
  ghost predicate NeverLowered(log: seq<Event>, id: string) {
    forall k | Stored(log, k, id) && Stored(log, |log|, id) ::
      Rank(StoredStatus(log, k, id)) <= Rank(StoredStatus(log, |log|, id))
  }

  /** After `m` events: as stored then, or ahead of it in a way the rest of the log makes good. */
  ghost predicate OnCourse(log: seq<Event>, m: nat, id: string, shown: Status) {
    m <= |log| && Stored(log, m, id) &&
    (shown == StoredStatus(log, m, id)
     || FixPending(log, m, |log|, id)
     || (shown == Running && StoredStatus(log, m, id) == Spawned && ProgressPending(log, m, |log|, id)))
  }

  lemma EventKeepsCourse(log: seq<Event>, m: nat, id: string, shown: Status)
    requires WellFormed(log) && m < |log| && OnCourse(log, m, id, shown)
    ensures OnCourse(log, m + 1, id, if About(log[m], id) then StatusAfter(shown, log[m].change) else shown)
  {
    StoreStep(log, m, id);
    var now := if About(log[m], id) then StatusAfter(shown, log[m].change) else shown;
    if FixPending(log, m, |log|, id) {
      if Fixes(log[m], id) {
        assert now == StoredStatus(log, m + 1, id);
      } else {
        var i :| m <= i < |log| && Fixes(log[i], id);
        assert m + 1 <= i;
      }
    } else if shown != StoredStatus(log, m, id) {
      var i :| m <= i < |log| && About(log[i], id) && log[i].change.Progress?;
      assert i == m || m + 1 <= i;
    }
  }

  lemma RowKeepsCourse(log: seq<Event>, m: nat, id: string, shown: Status, at: nat)
    requires WellFormed(log) && OnCourse(log, m, id, shown) && Stored(log, at, id) && NeverLowered(log, id)
    ensures OnCourse(log, m, id,
      if Rank(shown) >= Rank(StoredStatus(log, at, id)) then shown else StoredStatus(log, at, id))
  {
    if !FixPending(log, m, |log|, id) {
      Unfixed(log, m, |log|, id);
    }
  }

  /** A merge leaves a lane its status, or gives it one the store had that is ahead. */
  lemma {:induction false} MergedStatus(log: seq<Event>, s: Lanes, rows: seq<Row>, id: string)
    requires RowsOf(rows, log) && Stored(log, |log|, id) && id in s.byId && s.byId[id].rev > 0
    ensures id in Merge(s, rows).byId
    ensures
      var live, now := s.byId[id].status, Merge(s, rows).byId[id].status;
      now == live || exists k :: Stored(log, k, id) && now == StoredStatus(log, k, id) && Rank(now) > Rank(live)
  {
    MergeKeeps(s, rows, id);
    var live, now := s.byId[id].status, Merge(s, rows).byId[id].status;
    if now != live {
      var i :| 0 <= i < |rows| && rows[i].id == id;
      assert RowOf(rows[i], log);
      var k: nat :| Stored(log, k, id) && TableOf(log[..k])[id] == rows[i];
      assert now == StoredStatus(log, k, id);
    }
  }

  lemma {:induction false} FoldedLanes(log: seq<Event>, n: nat, id: string)
    requires WellFormed(log) && n <= |log|
    ensures id in Fold(NoLanes, log[..n]).byId <==> Stored(log, n, id)
    ensures id in Fold(NoLanes, log[..n]).byId ==> Fold(NoLanes, log[..n]).byId[id].rev > 0
  {
    if n > 0 {
      FoldedLanes(log, n - 1, id);
      SeenExactly(log, n - 1, log[n - 1].id);
      StoreStep(log, n - 1, id);
      assert log[..n][..n - 1] == log[..n - 1];
    }
  }

  /** The next event of the log at a panel that is on course, or that has just heard of the lane. */
  lemma NextKeepsCourse(log: seq<Event>, n: nat, id: string, s: Lanes)
    requires WellFormed(log) && n < |log| && log[n].id !in s.seen && Stored(log, n + 1, id)
    requires Stored(log, n, id) ==> id in s.byId && OnCourse(log, n, id, s.byId[id].status)
    ensures id in Reduce(s, log[n]).byId && OnCourse(log, n + 1, id, Reduce(s, log[n]).byId[id].status)
  {
    StoreStep(log, n, id);
    if Stored(log, n, id) {
      EventKeepsCourse(log, n, id, s.byId[id].status);
    }
  }

  lemma {:induction false} MergeKeepsCourse(log: seq<Event>, n: nat, id: string, s: Lanes, rows: seq<Row>)
    requires WellFormed(log) && NeverLowered(log, id) && RowsOf(rows, log)
    requires id in s.byId && s.byId[id].rev > 0 && OnCourse(log, n, id, s.byId[id].status)
    ensures id in Merge(s, rows).byId && OnCourse(log, n, id, Merge(s, rows).byId[id].status)
  {
    StoredForGood(log, n, |log|, id);
    MergedStatus(log, s, rows, id);
    var live, now := s.byId[id].status, Merge(s, rows).byId[id].status;
    if now != live {
      var k :| Stored(log, k, id) && now == StoredStatus(log, k, id) && Rank(now) > Rank(live);
      RowKeepsCourse(log, n, id, live, k);
    }
  }

  lemma {:induction false} StaysOnCourse(log: seq<Event>, steps: seq<Step>, id: string)
    requires WellFormed(log) && Possible(log, steps) && NeverLowered(log, id)
    requires Stored(log, Consumed(steps), id)
    ensures id in Panel(log, steps).byId && OnCourse(log, Consumed(steps), id, Panel(log, steps).byId[id].status)
  {
    if steps != [] {
      var before, step := steps[..|steps| - 1], steps[|steps| - 1];
      var n, s := Consumed(before), Panel(log, before);
      MergesLeaveTheTrace(log, before);
      if Stored(log, n, id) {
        StaysOnCourse(log, before, id);
      }
      match step
      case Next =>
        SentBefore(log, n, s, n);
        NextKeepsCourse(log, n, id, s);
      case Again(i) =>
        SentBefore(log, n, s, i);
      case Hydrate(rows) =>
        FoldedLanes(log, n, id);
        MergeKeepsCourse(log, n, id, s, rows);
    }
  }

  /** A panel that has been sent the whole log knows exactly the stored lanes and, for `id`, shows the stored status. */
  ghost predicate CatchesUp(log: seq<Event>, steps: seq<Step>, id: string) {
    Possible(log, steps) && Consumed(steps) == |log| && Stored(log, |log|, id) ==>
      id in Panel(log, steps).byId && Panel(log, steps).byId[id].status == StoredStatus(log, |log|, id)
  }

  ghost predicate AlwaysCatchesUp(log: seq<Event>, id: string) { forall steps :: CatchesUp(log, steps, id) }

  function Nexts(n: nat): seq<Step> { if n == 0 then [] else Nexts(n - 1) + [Next] }

  lemma {:induction false} NextsFold(log: seq<Event>, n: nat)
    requires n <= |log|
    ensures Possible(log, Nexts(n)) && Consumed(Nexts(n)) == n && Panel(log, Nexts(n)) == Fold(NoLanes, log[..n])
  {
    if n > 0 {
      NextsFold(log, n - 1);
      assert Nexts(n)[..|Nexts(n)| - 1] == Nexts(n - 1);
      assert log[..n][..n - 1] == log[..n - 1];
    }
  }

  /** For a given log: every run ends with the stored status exactly when that never fell below an earlier one. */
  lemma {:induction false} CatchesUpUnlessLowered(log: seq<Event>, id: string)
    requires WellFormed(log)
    ensures AlwaysCatchesUp(log, id) <==> NeverLowered(log, id)
  {
    if NeverLowered(log, id) {
      forall steps ensures CatchesUp(log, steps, id) {
        if Possible(log, steps) && Consumed(steps) == |log| && Stored(log, |log|, id) {
          StaysOnCourse(log, steps, id);
        }
      }
    } else {
      var k :| Stored(log, k, id) && Stored(log, |log|, id)
        && Rank(StoredStatus(log, k, id)) > Rank(StoredStatus(log, |log|, id));
      var steps := StaleRowWins(log, k, id);
    }
  }

  /** A row read before the status fell and merged after undoes the fall. */
  lemma {:induction false} StaleRowWins(log: seq<Event>, k: nat, id: string) returns (steps: seq<Step>)
    requires WellFormed(log) && Stored(log, k, id) && Stored(log, |log|, id)
    requires Rank(StoredStatus(log, k, id)) > Rank(StoredStatus(log, |log|, id))
    ensures !CatchesUp(log, steps, id)
  {
    var rows, folded := [TableOf(log[..k])[id]], Fold(NoLanes, log[..|log|]);
    TableRowIds(log[..k], id);
    NextsFold(log, |log|);
    steps := Nexts(|log|) + [Hydrate(rows)];
    assert steps[..|steps| - 1] == Nexts(|log|);
    assert Possible(log, steps) by {
      assert RowOf(rows[0], log);
    }
    assert Consumed(steps) == |log|;
    assert Panel(log, steps) == Merge(folded, rows);
    FoldedLanes(log, |log|, id);
    LoneRowWins(folded, rows, id);
  }

  lemma {:induction false} LoneRowWins(s: Lanes, rows: seq<Row>, id: string)
    requires |rows| == 1 && rows[0].id == id && id in s.byId
    ensures id in Merge(s, rows).byId && Rank(Merge(s, rows).byId[id].status) >= Rank(rows[0].status)
  {
    MergedView(s, rows, id);
    assert Merge(s, rows).byId[id] == MergeView(s.byId[id], ViewOf(rows[0]));
  }

  lemma {:induction false} TableRowIds(log: seq<Event>, id: string)
    requires id in TableOf(log)
    ensures TableOf(log)[id].id == id
  {
    if id in TableOf(log[..|log| - 1]) {
      TableRowIds(log[..|log| - 1], id);
    }
  }

  // ---- the life of a lane ----

  predicate Ends(ev: Event, id: string) { About(ev, id) && (ev.change.Complete? || ev.change.Abort?) }

  predicate Reports(ev: Event, id: string) { About(ev, id) && ev.change.MergeReport? }

  /** As the kernel runs a lane: its report, if any, comes before its end. */
  ghost predicate NoReportAfterEnd(log: seq<Event>, id: string) {
    forall i, j | 0 <= i < j < |log| && Ends(log[i], id) :: !Reports(log[j], id)
  }

  lemma {:induction false} EndedBy(log: seq<Event>, n: nat, id: string)
    requires WellFormed(log) && Stored(log, n, id) && Rank(StoredStatus(log, n, id)) == 3
    ensures exists i :: 0 <= i < n && Ends(log[i], id)
  {
    StoreStep(log, n - 1, id);
    if !Ends(log[n - 1], id) {
      EndedBy(log, n - 1, id);
    }
  }

  lemma {:induction false} StatusStepsUp(log: seq<Event>, n: nat, id: string)
    requires WellFormed(log) && NoReportAfterEnd(log, id) && Stored(log, n, id) && n < |log|
    ensures Stored(log, n + 1, id) && Rank(StoredStatus(log, n, id)) <= Rank(StoredStatus(log, n + 1, id))
  {
    StoreStep(log, n, id);
    if Rank(StoredStatus(log, n, id)) == 3 {
      EndedBy(log, n, id);
      assert !Reports(log[n], id);
    }
  }

  lemma {:induction false} StatusClimbs(log: seq<Event>, k: nat, n: nat, id: string)
    requires WellFormed(log) && NoReportAfterEnd(log, id) && Stored(log, k, id) && k <= n <= |log|
    ensures Stored(log, n, id) && Rank(StoredStatus(log, k, id)) <= Rank(StoredStatus(log, n, id))
    decreases n
  {
    if k < n {
      StatusClimbs(log, k, n - 1, id);
      StatusStepsUp(log, n - 1, id);
    }
  }

  lemma {:induction false} PrefixWellFormed(log: seq<Event>, sent: seq<Event>, id: string)
    requires WellFormed(log) && sent <= log
    ensures WellFormed(sent) && (NoReportAfterEnd(log, id) ==> NoReportAfterEnd(sent, id))
  {
    forall i | 0 <= i < |sent| ensures sent[i] == log[i] && sent[..i] == log[..i] {
    }
  }

  /** At every moment of the log, every run that has brought the panel there shows the stored status. */
  ghost predicate CatchesUpThroughout(log: seq<Event>, id: string) {
    forall sent | sent <= log :: AlwaysCatchesUp(sent, id)
  }

  /**
   * Whatever rows of the project are merged, from whenever, in whatever order with the events, and however often
   * events are sent: whenever the panel has all events so far it shows the store's status. That holds of
   * every run, at every moment, exactly when no report follows the end of the lane.
   */
  lemma {:induction false} PanelCatchesUpExactly(log: seq<Event>, id: string)
    requires WellFormed(log)
    ensures CatchesUpThroughout(log, id) <==> NoReportAfterEnd(log, id)
  {
    if NoReportAfterEnd(log, id) {
      NoLateReportCatchesUp(log, id);
    } else {
      var i, j :| 0 <= i < j < |log| && Ends(log[i], id) && Reports(log[j], id);
      var sent := log[..j + 1];
      assert sent[i] == log[i] && sent[|sent| - 1] == log[j];
      LateReportBreaks(log, sent, i, id);
    }
  }

  lemma {:induction false} NoLateReportCatchesUp(log: seq<Event>, id: string)
    requires WellFormed(log) && NoReportAfterEnd(log, id)
    ensures CatchesUpThroughout(log, id)
  {
    forall sent | sent <= log ensures AlwaysCatchesUp(sent, id) {
      PrefixWellFormed(log, sent, id);
      ClimbingCatchesUp(sent, id);
    }
  }

  lemma {:induction false} ClimbingIsNeverLowered(log: seq<Event>, id: string)
    requires WellFormed(log) && NoReportAfterEnd(log, id)
    ensures NeverLowered(log, id)
  {
    forall k | Stored(log, k, id) && Stored(log, |log|, id)
      ensures Rank(StoredStatus(log, k, id)) <= Rank(StoredStatus(log, |log|, id))
    {
      StatusClimbs(log, k, |log|, id);
    }
  }

  lemma {:induction false} ClimbingCatchesUp(log: seq<Event>, id: string)
    requires WellFormed(log) && NoReportAfterEnd(log, id)
    ensures AlwaysCatchesUp(log, id)
  {
    ClimbingIsNeverLowered(log, id);
    CatchesUpUnlessLowered(log, id);
  }

  lemma {:induction false} EventStores(log: seq<Event>, n: nat, id: string)
    requires WellFormed(log) && n < |log| && (Ends(log[n], id) || Reports(log[n], id))
    ensures Stored(log, n + 1, id) && Rank(StoredStatus(log, n + 1, id)) == if Ends(log[n], id) then 3 else 2
  {
    StoreStep(log, n, id);
  }

  lemma {:induction false} LateReportLowers(log: seq<Event>, i: nat, id: string)
    requires WellFormed(log) && i < |log| - 1 && Ends(log[i], id) && Reports(log[|log| - 1], id)
    ensures Stored(log, i + 1, id) && Stored(log, |log|, id)
    ensures Rank(StoredStatus(log, i + 1, id)) > Rank(StoredStatus(log, |log|, id))
  {
    EventStores(log, i, id);
    EventStores(log, |log| - 1, id);
  }

  lemma {:induction false} LateReportIsUndone(log: seq<Event>, i: nat, id: string)
    requires WellFormed(log) && i < |log| - 1 && Ends(log[i], id) && Reports(log[|log| - 1], id)
    ensures !AlwaysCatchesUp(log, id)
  {
    LateReportLowers(log, i, id);
    var steps := StaleRowWins(log, i + 1, id);
  }

  lemma {:induction false} LateReportBreaks(log: seq<Event>, sent: seq<Event>, i: nat, id: string)
    requires WellFormed(log) && sent <= log && i < |sent| - 1 && Ends(sent[i], id) && Reports(sent[|sent| - 1], id)
    ensures !CatchesUpThroughout(log, id)
  {
    PrefixWellFormed(log, sent, id);
    LateReportIsUndone(sent, i, id);
  }

  // ---- the lanes listed ----

  ghost predicate Hydrated(steps: seq<Step>, id: string) {
    exists i :: 0 <= i < |steps| && steps[i].Hydrate? && id in Ids(steps[i].rows)
  }

  lemma {:induction false} PanelKnows(log: seq<Event>, steps: seq<Step>, id: string)
    requires WellFormed(log) && Possible(log, steps)
    ensures id in Panel(log, steps).byId <==> Stored(log, Consumed(steps), id) || Hydrated(steps, id)
  {
    if steps != [] {
      var before, step := steps[..|steps| - 1], steps[|steps| - 1];
      var n := Consumed(before);
      PanelKnows(log, before, id);
      HydratedSnoc(before, step, id);
      assert steps == before + [step];
      MergesLeaveTheTrace(log, before);
      match step
      case Next =>
        SentBefore(log, n, Panel(log, before), n);
        StoreStep(log, n, id);
        assert id in Reduce(Panel(log, before), log[n]).byId <==> id in Panel(log, before).byId || About(log[n], id);
      case Again(i) =>
        SentBefore(log, n, Panel(log, before), i);
      case Hydrate(rows) =>
        MergedKnows(Panel(log, before), rows, id);
    }
  }

  lemma {:induction false} MergedKnows(s: Lanes, rows: seq<Row>, id: string)
    ensures id in Merge(s, rows).byId <==> id in s.byId || id in Ids(rows)
  {
    ViewsKeys(ByCreation(rows), id);
    SameIds(rows, id);
  }

  lemma {:induction false} HydratedSnoc(before: seq<Step>, step: Step, id: string)
    ensures Hydrated(before + [step], id) <==> Hydrated(before, id) || (step.Hydrate? && id in Ids(step.rows))
  {
    var steps := before + [step];
    assert steps[|before|] == step;
    forall i | 0 <= i < |before| ensures steps[i] == before[i] {
    }
    if Hydrated(before, id) {
      var i :| 0 <= i < |before| && before[i].Hydrate? && id in Ids(before[i].rows);
      assert steps[i] == before[i];
    }
  }

  lemma {:induction false} SameIds(rows: seq<Row>, id: string)
    ensures id in Ids(ByCreation(rows)) <==> id in Ids(rows)
  {
    SortPermutes(rows);
    assert id in multiset(Ids(ByCreation(rows))) <==> id in multiset(Ids(rows));
  }

  /** And it lists exactly the stored lanes it was sent and those whose rows were merged, each once. */
  lemma {:induction false} PanelListsExactly(log: seq<Event>, steps: seq<Step>, id: string)
    requires WellFormed(log) && Possible(log, steps)
    ensures Distinct(Panel(log, steps).order)
    ensures id in Panel(log, steps).order <==> Stored(log, Consumed(steps), id) || Hydrated(steps, id)
  {
    PanelCoherent(log, steps);
    PanelKnows(log, steps, id);
  }

  // ---- one project, many conversations ----

  /** What a log says about one lane. */
  function Own(id: string, log: seq<Event>): seq<Event> {
    if log == [] then []
    else
      var before, ev := Own(id, log[..|log| - 1]), log[|log| - 1];
      if About(ev, id) then before + [ev] else before
  }

  predicate AllAddressed(log: seq<Event>) {
    forall i | 0 <= i < |log| && Touches(log[i]) :: Addressed(log[i])
  }

  predicate Agree(t: Table, u: Table, id: string) {
    (id in t <==> id in u) && (id in t ==> t[id] == u[id])
  }

  lemma {:induction false} ProjectAgrees(t: Table, u: Table, ev: Event, id: string)
    requires Agree(t, u, id) && (Touches(ev) ==> Addressed(ev))
    ensures Agree(Project(t, ev), Project(u, ev), id)
    ensures !About(ev, id) ==> Agree(Project(t, ev), t, id)
  {
  }

  /** A lane's row is what its own events make of it. */
  lemma {:induction false} OwnDecides(id: string, log: seq<Event>)
    requires AllAddressed(log)
    ensures Agree(TableOf(log), TableOf(Own(id, log)), id)
  {
    if log != [] {
      var before, ev := log[..|log| - 1], log[|log| - 1];
      OwnDecides(id, before);
      ProjectAgrees(TableOf(before), TableOf(Own(id, before)), ev, id);
      if About(ev, id) {
        assert Own(id, log)[..|Own(id, before)|] == Own(id, before);
      }
    }
  }

  lemma {:induction false} OwnPrefix(id: string, log: seq<Event>, k: nat)
    requires k <= |log|
    ensures Own(id, log[..k]) <= Own(id, log)
  {
    if k < |log| {
      OwnPrefix(id, log[..|log| - 1], k);
      assert log[..|log| - 1][..k] == log[..k];
    } else {
      assert log[..k] == log;
    }
  }

  lemma {:induction false} OwnCut(id: string, log: seq<Event>, m: nat) returns (j: nat)
    requires m <= |Own(id, log)|
    ensures j <= |log| && Own(id, log[..j]) == Own(id, log)[..m]
  {
    if m == |Own(id, log)| {
      j := |log|;
      assert log[..j] == log;
    } else {
      var before := log[..|log| - 1];
      j := OwnCut(id, before, m);
      assert before[..j] == log[..j];
      OwnPrefix(id, log, |before|);
    }
  }

  /** The panel is sent all there is about a lane, in order, or nothing: it opens whole conversations. */
  predicate SentWhole(sent: seq<Event>, project: seq<Event>, id: string) {
    Own(id, sent) == Own(id, project) || Own(id, sent) == []
  }

  /**
   * Rows read at any moment of the project's log are rows of the panel's log, though this holds the
   * conversations the panel has opened only, in the order it opened them.
   */
  lemma {:induction false} ProjectRowsAreRowsOf(sent: seq<Event>, project: seq<Event>, k: nat, rows: seq<Row>)
    requires AllAddressed(sent) && AllAddressed(project) && k <= |project| && Distinct(Ids(rows))
    requires forall i | 0 <= i < |rows| ::
      SentWhole(sent, project, rows[i].id)
      && rows[i].id in TableOf(project[..k]) && TableOf(project[..k])[rows[i].id] == rows[i]
    ensures RowsOf(rows, sent)
  {
    forall i | 0 <= i < |rows| ensures RowOf(rows[i], sent) {
      ProjectRowIsRowOf(sent, project, k, rows[i]);
    }
  }

  lemma {:induction false} ProjectRowIsRowOf(sent: seq<Event>, project: seq<Event>, k: nat, row: Row)
    requires AllAddressed(sent) && AllAddressed(project) && k <= |project| && SentWhole(sent, project, row.id)
    requires row.id in TableOf(project[..k]) && TableOf(project[..k])[row.id] == row
    ensures RowOf(row, sent)
  {
    var id := row.id;
    OwnDecides(id, project[..k]);
    OwnDecides(id, sent);
    OwnPrefix(id, project, k);
    assert sent[..|sent|] == sent;
    if Own(id, sent) != [] {
      var m := |Own(id, project[..k])|;
      var j := OwnCut(id, sent, m);
      assert Own(id, sent[..j]) == Own(id, project[..k]);
      OwnDecides(id, sent[..j]);
      assert Stored(sent, j, id) && TableOf(sent[..j])[id] == row;
    }
  }
}
