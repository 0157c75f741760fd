/**
 * What a lane's row and its view in the panel say, field by field, told from all that was said about the
 * lane: by its events, and by the rows merged in between.
 */
module LaneHistory {
  import opened Order
  import opened LanesPanel
  import opened LaneConvergence

  datatype Saying = ByEvent(change: Change) | ByRow(row: Row)

  // ---- what one saying gives ----

  function KindIn(s: Saying): Option<string> {
    if s.ByRow? then Some(s.row.kind) else if s.change.Spawn? then s.change.kind else None
  }

  function GoalIn(s: Saying): Option<string> {
    if s.ByRow? then s.row.goal else if s.change.Mandate? then s.change.goal else None
  }

  /** An event names a workspace only with a text that is not empty. */
  function WorkspaceIn(s: Saying): Option<string> {
    if s.ByRow? then s.row.workspace
    else if s.change.Mandate? && s.change.workspace != Some("") then s.change.workspace
    else None
  }

  function ExitIn(s: Saying): Option<string> {
    match s
    case ByRow(row) => row.exit
    case ByEvent(MergeReport(exit, _, _)) => exit
    case ByEvent(Complete(exit)) => exit
    case ByEvent(_) => None
  }

  function SummaryIn(s: Saying): Option<string> {
    if s.ByRow? then s.row.summary else if s.change.MergeReport? then s.change.summary else None
  }

  function UsageIn(s: Saying): Option<Usage> {
    if s.ByRow? then s.row.usage else if s.change.MergeReport? then s.change.usage else None
  }

  /** A row never carries the reason of an abort. */
  function ReasonIn(s: Saying): Option<string> {
    if s.ByEvent? && s.change.Abort? then s.change.reason else None
  }

  function AbortIn(s: Saying): Option<string> {
    if s.ByEvent? && s.change.Abort? then Some("aborted") else None
  }

  function NotesIn(s: Saying): seq<Note> {
    if s.ByEvent? && s.change.Progress?
    then [Note(if s.change.note.Some? then s.change.note.value else "", s.change.pct)] else []
  }

  // ---- what all of them come to ----

  /** The last of the values given. */
  function Last<T>(said: seq<Saying>, give: Saying -> Option<T>): Option<T> {
    if said == [] then None
    else
      var given := give(said[|said| - 1]);
      if given.Some? then given else Last(said[..|said| - 1], give)
  }

  function AllNotes(said: seq<Saying>): seq<Note> {
    if said == [] then [] else AllNotes(said[..|said| - 1]) + NotesIn(said[|said| - 1])
  }

  function EventsIn(said: seq<Saying>): nat {
    if said == [] then 0 else EventsIn(said[..|said| - 1]) + if said[|said| - 1].ByEvent? then 1 else 0
  }

  lemma LastSnoc<T>(said: seq<Saying>, s: Saying, give: Saying -> Option<T>)
    ensures Last(said + [s], give) == if give(s).Some? then give(s) else Last(said, give)
  {
    assert (said + [s])[..|said|] == said;
  }

  /**
   * Goal, workspace, summary, usage and reason are the last given; the exit too, or `aborted` where an abort
   * came and no exit was ever given; the progress is every note in order, and the revision counts the events.
   */
  predicate Tells(p: View, said: seq<Saying>) {
    TellsStart(p, said) && TellsEnd(p, said) && p.progress == AllNotes(said) && p.rev == EventsIn(said)
  }

  predicate TellsStart(p: View, said: seq<Saying>) {
    && p.kind == (if Last(said, KindIn).Some? then Last(said, KindIn).value else "lane")
    && p.goal == Last(said, GoalIn) && p.workspace == Last(said, WorkspaceIn)
  }

  predicate TellsEnd(p: View, said: seq<Saying>) {
    && p.summary == Last(said, SummaryIn) && p.usage == Last(said, UsageIn) && p.reason == Last(said, ReasonIn)
    && p.exit == (if Last(said, ExitIn).Some? then Last(said, ExitIn) else Last(said, AbortIn))
  }

  lemma SaysOneMore(said: seq<Saying>, s: Saying)
    ensures AllNotes(said + [s]) == AllNotes(said) + NotesIn(s)
    ensures EventsIn(said + [s]) == EventsIn(said) + if s.ByEvent? then 1 else 0
  {
    assert (said + [s])[..|said|] == said;
  }

  lemma EndSnoc(said: seq<Saying>, s: Saying)
    ensures Last(said + [s], SummaryIn) == if SummaryIn(s).Some? then SummaryIn(s) else Last(said, SummaryIn)
    ensures Last(said + [s], UsageIn) == if UsageIn(s).Some? then UsageIn(s) else Last(said, UsageIn)
    ensures Last(said + [s], ReasonIn) == if ReasonIn(s).Some? then ReasonIn(s) else Last(said, ReasonIn)
    ensures Last(said + [s], ExitIn) == if ExitIn(s).Some? then ExitIn(s) else Last(said, ExitIn)
    ensures Last(said + [s], AbortIn) == if AbortIn(s).Some? then AbortIn(s) else Last(said, AbortIn)
  {
    LastSnoc(said, s, SummaryIn);
    LastSnoc(said, s, UsageIn);
    LastSnoc(said, s, ReasonIn);
    LastSnoc(said, s, ExitIn);
    LastSnoc(said, s, AbortIn);
  }

  lemma {:induction false} AbortedOnly(said: seq<Saying>)
    ensures Last(said, AbortIn).Some? ==> Last(said, AbortIn) == Some("aborted")
  {
    if said != [] {
      AbortedOnly(said[..|said| - 1]);
    }
  }

  lemma FreshTells(id: string)
    ensures Tells(FreshView(id), [])
  {
  }

  lemma StartSnoc(said: seq<Saying>, s: Saying)
    ensures Last(said + [s], KindIn) == if KindIn(s).Some? then KindIn(s) else Last(said, KindIn)
    ensures Last(said + [s], GoalIn) == if GoalIn(s).Some? then GoalIn(s) else Last(said, GoalIn)
    ensures Last(said + [s], WorkspaceIn) == if WorkspaceIn(s).Some? then WorkspaceIn(s) else Last(said, WorkspaceIn)
  {
    LastSnoc(said, s, KindIn);
    LastSnoc(said, s, GoalIn);
    LastSnoc(said, s, WorkspaceIn);
  }

  lemma EventTellsStart(p: View, said: seq<Saying>, change: Change)
    requires TellsStart(p, said)
    ensures TellsStart(Patch(p, change), said + [ByEvent(change)])
  {
    StartSnoc(said, ByEvent(change));
  }

  lemma EventTellsEnd(p: View, said: seq<Saying>, change: Change)
    requires TellsEnd(p, said)
    ensures TellsEnd(Patch(p, change), said + [ByEvent(change)])
  {
    EndSnoc(said, ByEvent(change));
    AbortedOnly(said);
  }

  lemma EventTells(p: View, said: seq<Saying>, change: Change)
    requires Tells(p, said)
    ensures Tells(Patch(p, change).(rev := p.rev + 1), said + [ByEvent(change)])
  {
    SaysOneMore(said, ByEvent(change));
    EventTellsStart(p, said, change);
    EventTellsEnd(p, said, change);
    assert change.Progress? || AllNotes(said) + [] == AllNotes(said);
  }

  lemma RowTells(p: View, said: seq<Saying>, row: Row)
    requires Tells(p, said)
    ensures Tells(MergeView(p, ViewOf(row)), said + [ByRow(row)])
  {
    SaysOneMore(said, ByRow(row));
    StartSnoc(said, ByRow(row));
    EndSnoc(said, ByRow(row));
  }

  lemma LoneRowTells(row: Row)
    ensures Tells(ViewOf(row), [ByRow(row)])
  {
    FreshTells(row.id);
    RowTells(FreshView(row.id), [], row);
    assert [] + [ByRow(row)] == [ByRow(row)];
  }

  // ---- the panel, over every run ----

  function RowFor(rows: seq<Row>, id: string): Option<Row> {
    if rows == [] then None
    else if rows[|rows| - 1].id == id then Some(rows[|rows| - 1])
    else RowFor(rows[..|rows| - 1], id)
  }

  function SaidAt(log: seq<Event>, n: nat, step: Step, id: string): seq<Saying> {
    match step
    case Next => if n < |log| && About(log[n], id) then [ByEvent(log[n].change)] else []
    case Again(_) => []
    case Hydrate(rows) => if RowFor(rows, id).Some? then [ByRow(RowFor(rows, id).value)] else []
  }

  /** All that a run has said about a lane: redeliveries say nothing. */
  function Said(log: seq<Event>, steps: seq<Step>, id: string): seq<Saying> {
    if steps == [] then []
    else
      var before := steps[..|steps| - 1];
      Said(log, before, id) + SaidAt(log, Consumed(before), steps[|steps| - 1], id)
  }

  /** The panel has the lane exactly if something was said about it, and then shows what was. */
  ghost predicate Shows(s: Lanes, id: string, said: seq<Saying>) {
    (id in s.byId <==> said != []) && (id in s.byId ==> Tells(s.byId[id], said))
  }

  lemma {:induction false} RowForIs(rows: seq<Row>, id: string)
    ensures RowFor(rows, id).Some? <==> id in Ids(rows)
    ensures RowFor(rows, id).Some? ==>
      exists i :: 0 <= i < |rows| && rows[i] == RowFor(rows, id).value && rows[i].id == id
  {
    if rows != [] {
      RowForIs(rows[..|rows| - 1], id);
      assert Ids(rows) == Ids(rows[..|rows| - 1]) + [rows[|rows| - 1].id];
    }
  }

  lemma EventShows(s: Lanes, ev: Event, id: string, said: seq<Saying>)
    requires Shows(s, id, said) && ev.id != "" && ev.id !in s.seen && (Touches(ev) ==> Addressed(ev))
    ensures Shows(Reduce(s, ev), id, if About(ev, id) then said + [ByEvent(ev.change)] else said)
  {
    if About(ev, id) {
      var p := if id in s.byId then s.byId[id] else FreshView(id);
      FreshTells(id);
      EventTells(p, said, ev.change);
    }
  }

  /** What a merge makes of one lane. */
  lemma MergedOne(s: Lanes, rows: seq<Row>, id: string)
    requires Distinct(Ids(rows))
    ensures var m, row := Merge(s, rows).byId, RowFor(rows, id);
      && (row == None ==> (id in m <==> id in s.byId) && (id in m ==> m[id] == s.byId[id]))
      && (row.Some? ==>
            id in m
            && m[id] == (if id in s.byId then MergeView(s.byId[id], ViewOf(row.value)) else ViewOf(row.value)))
  {
    RowForIs(rows, id);
    FromRowsCoherent(rows);
    var h := FromRows(rows);
    assert Merge(s, rows).byId == Merged(s.byId, h.byId);
    assert RowFor(rows, id) == None ==> id !in h.byId;
  }

  lemma MergeShows(s: Lanes, rows: seq<Row>, id: string, said: seq<Saying>)
    requires Shows(s, id, said) && Distinct(Ids(rows))
    ensures Shows(Merge(s, rows), id,
      if RowFor(rows, id).Some? then said + [ByRow(RowFor(rows, id).value)] else said)
  {
    MergedOne(s, rows, id);
    if RowFor(rows, id).Some? {
      var row := RowFor(rows, id).value;
      if id in s.byId {
        RowTells(s.byId[id], said, row);
      } else {
        LoneRowTells(row);
        assert said + [ByRow(row)] == [ByRow(row)];
      }
    }
  }

  /** One step of a run, at a panel that shows what was said. */
  lemma StepShows(log: seq<Event>, n: nat, s: Lanes, step: Step, id: string, said: seq<Saying>)
    requires WellFormed(log) && n <= |log| && s.seen == Fold(NoLanes, log[..n]).seen && Shows(s, id, said)
    ensures step.Next? && n < |log| ==> Shows(Reduce(s, log[n]), id, said + SaidAt(log, n, step, id))
    ensures step.Again? && step.index < n ==>
      Reduce(s, log[step.index]) == s && Shows(s, id, said + SaidAt(log, n, step, id))
    ensures step.Hydrate? && RowsOf(step.rows, log) ==>
      Shows(Merge(s, step.rows), id, said + SaidAt(log, n, step, id))
  {
    assert said + [] == said;
    match step
    case Next =>
      if n < |log| {
        SentBefore(log, n, s, n);
        EventShows(s, log[n], id, said);
      }
    case Again(i) =>
      if i < n {
        SentBefore(log, n, s, i);
      }
    case Hydrate(rows) =>
      if RowsOf(rows, log) {
        MergeShows(s, rows, id, said);
      }
  }

  /**
   * Over every run, in whatever order events and rows arrive and however often events are sent, the panel
   * shows of a lane exactly what its events and rows came to.
   */
  lemma {:induction false} PanelShowsWhatWasSaid(log: seq<Event>, steps: seq<Step>, id: string)
    requires WellFormed(log) && Possible(log, steps)
    ensures Shows(Panel(log, steps), id, Said(log, steps, id))
  {
    if steps != [] {
      var before, step := steps[..|steps| - 1], steps[|steps| - 1];
      MergesLeaveTheTrace(log, before);
      PanelShowsWhatWasSaid(log, before, id);
      StepShows(log, Consumed(before), Panel(log, before), step, id, Said(log, before, id));
    }
  }

  // ---- the store's row ----

  /** What the events of a log said about a lane. */
  function Told(id: string, log: seq<Event>): seq<Saying> {
    if log == [] then []
    else
      Told(id, log[..|log| - 1]) + if About(log[|log| - 1], id) then [ByEvent(log[|log| - 1].change)] else []
  }

  function MandateIn(s: Saying): Option<Change> {
    if s.ByEvent? && s.change.Mandate? then Some(s.change) else None
  }

  function ReportIn(s: Saying): Option<Change> {
    if s.ByEvent? && s.change.MergeReport? then Some(s.change) else None
  }

  /** The events that settle a lane's status whatever it was. */
  function StatusIn(s: Saying): Option<Status> {
    match s
    case ByEvent(MergeReport(_, _, _)) => Some(Merging)
    case ByEvent(Complete(_)) => Some(Completed)
    case ByEvent(Abort(_)) => Some(Aborted)
    case _ => None
  }

  /** Until its first report or end a lane is running if it has told any progress; after it, the last one counts. */
  function StatusTold(said: seq<Saying>): Status {
    if Last(said, StatusIn).Some? then Last(said, StatusIn).value
    else if AllNotes(said) != [] then Running
    else Spawned
  }

  /** A row holds the last mandate and the last report whole, absent fields included. */
  predicate RowHolds(row: Row, said: seq<Saying>) {
    && said != [] && said[0].ByEvent? && said[0].change.Spawn?
    && row.kind == (if said[0].change.kind.Some? then said[0].change.kind.value else "")
    && row.status == StatusTold(said)
    && (match Last(said, MandateIn)
        case None => row.goal == None && row.workspace == None
        case Some(mandate) => mandate.Mandate? && row.goal == mandate.goal && row.workspace == mandate.workspace)
    && (match Last(said, ReportIn)
        case None => row.exit == None && row.summary == None && row.usage == None
        case Some(report) =>
          && report.MergeReport? && row.exit == report.exit
          && row.summary == report.summary && row.usage == report.usage)
  }

  lemma {:induction false} SettledIsNotSpawned(said: seq<Saying>)
    ensures Last(said, StatusIn) != Some(Spawned)
  {
    if said != [] {
      SettledIsNotSpawned(said[..|said| - 1]);
    }
  }

  lemma RowHoldsMore(row: Row, said: seq<Saying>, change: Change)
    requires RowHolds(row, said) && !change.Spawn?
    ensures RowHolds(ProjectRow(row, change), said + [ByEvent(change)])
  {
    var s := ByEvent(change);
    SaysOneMore(said, s);
    SettledIsNotSpawned(said);
    LastSnoc(said, s, StatusIn);
    LastSnoc(said, s, MandateIn);
    LastSnoc(said, s, ReportIn);
  }

  lemma SpawnHolds(row: Row, change: Change)
    requires change.Spawn? && row.kind == (if change.kind.Some? then change.kind.value else "")
    requires row.status == Spawned && row.goal == None && row.workspace == None
    requires row.exit == None && row.summary == None && row.usage == None
    ensures RowHolds(row, [ByEvent(change)])
  {
    var said, s: Saying := [], ByEvent(change);
    assert said + [s] == [s];
    SaysOneMore(said, s);
    LastSnoc(said, s, StatusIn);
    LastSnoc(said, s, MandateIn);
    LastSnoc(said, s, ReportIn);
  }

  /** One event at a stored row. */
  lemma RowStep(log: seq<Event>, n: nat, id: string)
    requires WellFormed(log) && n < |log| && Stored(log, n + 1, id)
    ensures Stored(log, n, id) || (About(log[n], id) && log[n].change.Spawn?)
    ensures var row, ev := TableOf(log[..n + 1])[id], log[n];
      if Stored(log, n, id) then
        row == (if About(ev, id) then ProjectRow(TableOf(log[..n])[id], ev.change) else TableOf(log[..n])[id])
      else
        row == Row(id, if ev.change.kind.Some? then ev.change.kind.value else "",
                   Spawned, None, None, None, None, None, ev.ts)
  {
    StoreStep(log, n, id);
    assert log[..n + 1][..n] == log[..n] && log[..n + 1][n] == log[n];
  }

  lemma ToldStep(log: seq<Event>, n: nat, id: string)
    requires n < |log|
    ensures Told(id, log[..n + 1]) == Told(id, log[..n]) + if About(log[n], id) then [ByEvent(log[n].change)] else []
  {
    assert log[..n + 1][..n] == log[..n] && log[..n + 1][n] == log[n];
  }

  /** The store's row of a lane is what its events told: the last mandate, the last report, the status they come to. */
  lemma {:induction false} StoreHoldsWhatWasTold(log: seq<Event>, n: nat, id: string)
    requires WellFormed(log) && n <= |log|
    ensures Stored(log, n, id) <==> Told(id, log[..n]) != []
    ensures Stored(log, n, id) ==> RowHolds(TableOf(log[..n])[id], Told(id, log[..n]))
  {
    if n > 0 {
      var m := n - 1;
      StoreHoldsWhatWasTold(log, m, id);
      StoreStep(log, m, id);
      ToldStep(log, m, id);
      if Stored(log, n, id) {
        RowStep(log, m, id);
        if !Stored(log, m, id) {
          SpawnHolds(TableOf(log[..n])[id], log[m].change);
          assert Told(id, log[..n]) == [ByEvent(log[m].change)];
        } else if About(log[m], id) {
          RowHoldsMore(TableOf(log[..m])[id], Told(id, log[..m]), log[m].change);
        } else {
          assert Told(id, log[..n]) == Told(id, log[..m]);
        }
      }
    }
  }

  /** A lane's row was created when its spawn was written. */
  lemma {:induction false} CreatedAtSpawn(log: seq<Event>, n: nat, i: nat, id: string)
    requires WellFormed(log) && i < n <= |log| && About(log[i], id) && log[i].change.Spawn?
    ensures Stored(log, n, id) && TableOf(log[..n])[id].id == id && TableOf(log[..n])[id].createdAt == log[i].ts
    decreases n
  {
    var m := n - 1;
    StoreStep(log, m, id);
    if i < m {
      CreatedAtSpawn(log, m, i, id);
    }
    RowStep(log, m, id);
  }

  // ---- the order of rows ----

  predicate Ascending(rows: seq<Row>) {
    forall i, j | 0 <= i < j < |rows| :: rows[i].createdAt <= rows[j].createdAt
  }

  /** The rows of one moment, in their order. */
  function At(rows: seq<Row>, t: int): seq<Row> {
    if rows == [] then []
    else At(rows[..|rows| - 1], t) + if rows[|rows| - 1].createdAt == t then [rows[|rows| - 1]] else []
  }

  lemma AtSnoc(rows: seq<Row>, row: Row, t: int)
    ensures At(rows + [row], t) == At(rows, t) + if row.createdAt == t then [row] else []
  {
    assert (rows + [row])[..|rows|] == rows;
  }

  lemma {:induction false} InsertSorts(sorted: seq<Row>, row: Row)
    requires Ascending(sorted)
    ensures Ascending(Insert(sorted, row))
    ensures forall i | 0 <= i < |Insert(sorted, row)| ::
      Insert(sorted, row)[i].createdAt <= row.createdAt || Insert(sorted, row)[i] in sorted
  {
    if sorted != [] && sorted[|sorted| - 1].createdAt > row.createdAt {
      var before, last := sorted[..|sorted| - 1], sorted[|sorted| - 1];
      InsertSorts(before, row);
      forall i | 0 <= i < |Insert(before, row)| ensures Insert(before, row)[i].createdAt <= last.createdAt {
        if Insert(before, row)[i].createdAt > row.createdAt {
          assert Insert(before, row)[i] in before;
        }
      }
    }
  }

  lemma {:induction false} InsertKeepsTies(sorted: seq<Row>, row: Row, t: int)
    requires Ascending(sorted)
    ensures At(Insert(sorted, row), t) == At(sorted, t) + if row.createdAt == t then [row] else []
  {
    if sorted == [] || sorted[|sorted| - 1].createdAt <= row.createdAt {
      AtSnoc(sorted, row, t);
    } else {
      var before, last := sorted[..|sorted| - 1], sorted[|sorted| - 1];
      InsertKeepsTies(before, row, t);
      AtSnoc(Insert(before, row), last, t);
    }
  }

  /** Hydrated lanes stand in the order of their creation, and those of one moment as they were read. */
  lemma {:induction false} ByCreationIsStableSort(rows: seq<Row>, t: int)
    ensures Ascending(ByCreation(rows)) && At(ByCreation(rows), t) == At(rows, t)
    ensures multiset(ByCreation(rows)) == multiset(rows)
  {
    SortPermutes(rows);
    if rows != [] {
      var before, row := rows[..|rows| - 1], rows[|rows| - 1];
      ByCreationIsStableSort(before, t);
      InsertSorts(ByCreation(before), row);
      InsertKeepsTies(ByCreation(before), row, t);
    }
  }
  predicate Precedes(whole: seq<string>, x: string, y: string) {
    exists a, b | 0 <= a < b < |whole| :: whole[a] == x && whole[b] == y
  }

  /** Any two of `part` stand in `whole` in the same order. */
  predicate InOrder(part: seq<string>, whole: seq<string>) {
    forall i, j | 0 <= i < j < |part| :: Precedes(whole, part[i], part[j])
  }

  lemma PrecedesSnoc(whole: seq<string>, last: string, x: string, y: string)
    requires Precedes(whole, x, y) || (x in whole && y == last)
    ensures Precedes(whole + [last], x, y)
  {
    var longer := whole + [last];
    if Precedes(whole, x, y) {
      var a, b :| 0 <= a < b < |whole| && whole[a] == x && whole[b] == y;
      assert longer[a] == x && longer[b] == y;
    } else {
      var a :| 0 <= a < |whole| && whole[a] == x;
      assert longer[a] == x && longer[|whole|] == y;
    }
  }

  lemma {:induction false} WithoutInOrder(order: seq<string>, ids: seq<string>)
    ensures InOrder(Without(order, ids), order)
    ensures forall id | id in Without(order, ids) :: id in order
  {
    if order != [] {
      var before, last := order[..|order| - 1], order[|order| - 1];
      var kept, all := Without(before, ids), Without(order, ids);
      WithoutInOrder(before, ids);
      assert order == before + [last];
      forall i, j | 0 <= i < j < |all| ensures Precedes(order, all[i], all[j]) {
        assert all[i] == kept[i] && kept[i] in kept;
        assert j < |kept| ==> all[j] == kept[j];
        PrecedesSnoc(before, last, all[i], all[j]);
      }
    }
  }

  /** A merge lists the lanes of the rows first, by creation, and behind them all others in the order they had. */
  lemma MergeOrders(s: Lanes, rows: seq<Row>) returns (others: seq<string>)
    requires Distinct(s.order)
    ensures Merge(s, rows).order == Ids(ByCreation(rows)) + others
    ensures InOrder(others, s.order)
    ensures forall id :: id in others <==> id in s.order && id !in Ids(rows)
  {
    others := Without(s.order, Ids(ByCreation(rows)));
    WithoutInOrder(s.order, Ids(ByCreation(rows)));
    WithoutIs(s.order, Ids(ByCreation(rows)));
    forall id ensures id in Ids(ByCreation(rows)) <==> id in Ids(rows) {
      SameIds(rows, id);
    }
  }

  /** The lanes a log spawns, in the order in which it does. */
  function LanesSpawned(log: seq<Event>): seq<string> {
    if log == [] then []
    else
      var ev := log[|log| - 1];
      LanesSpawned(log[..|log| - 1]) + if ev.change.Spawn? && ev.envelope.Some? then [ev.envelope.value] else []
  }

  /** Folding a log lists its lanes in the order in which they were spawned. */
  lemma {:induction false} FoldListsAsSpawned(log: seq<Event>, n: nat)
    requires WellFormed(log) && n <= |log|
    ensures Fold(NoLanes, log[..n]).order == LanesSpawned(log[..n])
  {
    if n > 0 {
      var m := n - 1;
      var ev, s := log[m], Fold(NoLanes, log[..m]);
      FoldListsAsSpawned(log, m);
      SeenExactly(log, m, ev.id);
      assert log[..n][..m] == log[..m] && log[..n][m] == ev;
      if Touches(ev) {
        StoreStep(log, m, ev.envelope.value);
        FoldedLanes(log, m, ev.envelope.value);
      }
    }
  }
}
