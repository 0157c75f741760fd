/**
 * Lane rows as the store projects them (packages/store/src/project.ts:663-720) and as the web panel folds and
 * merges them (apps/web/src/lanes-state.ts).
 */
module LanesPanel {
  import opened Order

  datatype Status = Spawned | Running | Merging | Completed | Aborted

  datatype Usage = Usage(inputTokens: int, outputTokens: int)

  datatype Note = Note(text: string, pct: Option<int>)

  /** What an event says, fields of the wrong type being absent. `Pane` is any other `lane.` event. */
  datatype Change =
    | Spawn(kind: Option<string>)
    | Mandate(goal: Option<string>, workspace: Option<string>)
    | Progress(note: Option<string>, pct: Option<int>)
    | MergeReport(exit: Option<string>, summary: Option<string>, usage: Option<Usage>)
    | Complete(exit: Option<string>)
    | Abort(reason: Option<string>)
    | Pane
    | NotOfALane

  /** The lane's id may stand in the envelope, in the payload, or in both. */
  datatype Event = Event(id: string, ts: int, envelope: Option<string>, payload: Option<string>, change: Change)

  /** A row of the store, its JSON columns read. */
  datatype Row = Row(
    id: string, kind: string, status: Status, goal: Option<string>, workspace: Option<string>,
    exit: Option<string>, summary: Option<string>, usage: Option<Usage>, createdAt: int)

  datatype View = View(
    id: string, kind: string, status: Status, goal: Option<string>, progress: seq<Note>, exit: Option<string>,
    summary: Option<string>, reason: Option<string>, usage: Option<Usage>, workspace: Option<string>, rev: nat)

  datatype Lanes = Lanes(seen: set<string>, byId: map<string, View>, order: seq<string>)

  function Rank(status: Status): nat {
    match status
    case Spawned => 0
    case Running => 1
    case Merging => 2
    case Completed => 3
    case Aborted => 3
  }

  function Or<T>(first: Option<T>, second: Option<T>): Option<T> {
    if first.Some? then first else second
  }

  // ---- the store's projection ----

  type Table = map<string, Row>

  /** Progress names its lane in the envelope only; every other event in its payload. */
  function RowId(ev: Event): Option<string> {
    if ev.change.Progress? then ev.envelope else ev.payload
  }

  function ProjectRow(row: Row, change: Change): Row {
    match change
    case Mandate(goal, workspace) => row.(goal := goal, workspace := workspace)
    case Progress(_, _) => if row.status == Spawned then row.(status := Running) else row
    case MergeReport(exit, summary, usage) => row.(exit := exit, summary := summary, usage := usage, status := Merging)
    case Complete(_) => row.(status := Completed)
    case Abort(_) => row.(status := Aborted)
    case _ => row
  }

  function Project(t: Table, ev: Event): Table {
    if !Truthy(RowId(ev)) then t
    else
      var id := RowId(ev).value;
      if id in t then t[id := ProjectRow(t[id], ev.change)]
      else if ev.change.Spawn? then
        var kind := if ev.change.kind.Some? then ev.change.kind.value else "";
        t[id := Row(id, kind, Spawned, None, None, None, None, None, ev.ts)]
      else t
  }

  function TableOf(log: seq<Event>): Table {
    if log == [] then map[] else Project(TableOf(log[..|log| - 1]), log[|log| - 1])
  }

  // ---- the panel's fold ----

  const NoLanes := Lanes({}, map[], [])

  function LaneIdOf(ev: Event): Option<string> {
    if Truthy(ev.envelope) then ev.envelope else ev.payload
  }

  function FreshView(id: string): View {
    View(id, "lane", Spawned, None, [], None, None, None, None, None, 0)
  }

  /** The status an event leaves a lane in. */
  function StatusAfter(status: Status, change: Change): Status {
    match change
    case Spawn(_) => Spawned
    case Progress(_, _) => if status == Spawned then Running else status
    case MergeReport(_, _, _) => Merging
    case Complete(_) => Completed
    case Abort(_) => Aborted
    case _ => status
  }

  function Patch(p: View, change: Change): View {
    match change
    case Spawn(kind) => p.(kind := if kind.Some? then kind.value else p.kind, status := Spawned)
    case Mandate(goal, workspace) =>
      p.(goal := Or(goal, p.goal), workspace := if Truthy(workspace) then workspace else p.workspace)
    case Progress(note, pct) =>
      p.(status := if p.status == Spawned then Running else p.status,
         progress := p.progress + [Note(if note.Some? then note.value else "", pct)])
    case MergeReport(exit, summary, usage) =>
      p.(status := Merging, exit := Or(exit, p.exit), summary := Or(summary, p.summary), usage := Or(usage, p.usage))
    case Complete(exit) => p.(status := Completed, exit := Or(exit, p.exit))
    case Abort(reason) => p.(status := Aborted, reason := Or(reason, p.reason), exit := Or(p.exit, Some("aborted")))
    case _ => p
  }

  function Upsert(s: Lanes, id: string, change: Change, seen: set<string>): Lanes {
    var base := if id in s.byId then s.byId[id] else FreshView(id);
    Lanes(
      seen,
      s.byId[id := Patch(base, change).(rev := base.rev + 1)],
      if id in s.byId then s.order else s.order + [id])
  }

  function Reduce(s: Lanes, ev: Event): Lanes {
    if ev.change.NotOfALane? || (ev.id != "" && ev.id in s.seen) || !Truthy(LaneIdOf(ev)) || ev.change.Pane? then s
    else Upsert(s, LaneIdOf(ev).value, ev.change, if ev.id != "" then s.seen + {ev.id} else s.seen)
  }

  function Fold(s: Lanes, events: seq<Event>): Lanes {
    if events == [] then s else Reduce(Fold(s, events[..|events| - 1]), events[|events| - 1])
  }

  method FoldLaneEvents(s: Lanes, events: seq<Event>) returns (next: Lanes)
    ensures next == Fold(s, events)
  {
    next := s;
    for i := 0 to |events|
      invariant next == Fold(s, events[..i])
    {
      assert events[..i + 1][..i] == events[..i];
      next := Reduce(next, events[i]);
    }
    assert events[..|events|] == events;
  }

  // ---- the panel's merge with stored rows ----

  /** A stable sort by creation time. */
  function Insert(sorted: seq<Row>, row: Row): seq<Row> {
    if sorted == [] || sorted[|sorted| - 1].createdAt <= row.createdAt then sorted + [row]
    else Insert(sorted[..|sorted| - 1], row) + [sorted[|sorted| - 1]]
  }

  function ByCreation(rows: seq<Row>): seq<Row> {
    if rows == [] then [] else Insert(ByCreation(rows[..|rows| - 1]), rows[|rows| - 1])
  }

  function ViewOf(row: Row): View {
    View(row.id, row.kind, row.status, row.goal, [], row.exit, row.summary, None, row.usage, row.workspace, 0)
  }

  function Ids(rows: seq<Row>): (r: seq<string>)
    ensures |r| == |rows| && forall i | 0 <= i < |rows| :: r[i] == rows[i].id
  {
    seq(|rows|, i requires 0 <= i < |rows| => rows[i].id)
  }

  function Views(rows: seq<Row>): map<string, View> {
    if rows == [] then map[]
    else Views(rows[..|rows| - 1])[rows[|rows| - 1].id := ViewOf(rows[|rows| - 1])]
  }

  function FromRows(rows: seq<Row>): Lanes {
    Lanes({}, Views(ByCreation(rows)), Ids(ByCreation(rows)))
  }

  method LanesFromRows(rows: seq<Row>) returns (s: Lanes)
    ensures s == FromRows(rows)
  {
    var ordered := ByCreation(rows);
    var byId := map[];
    for i := 0 to |ordered|
      invariant byId == Views(ordered[..i])
    {
      assert ordered[..i + 1][..i] == ordered[..i];
      byId := byId[ordered[i].id := ViewOf(ordered[i])];
    }
    assert ordered[..|ordered|] == ordered;
    s := Lanes({}, byId, Ids(ordered));
  }

  /** A lane known live takes the row's fields, but keeps what only events carry, and its status unless behind. */
  function MergeView(live: View, row: View): View {
    View(
      row.id, row.kind,
      if live.rev > 0 && Rank(live.status) >= Rank(row.status) then live.status else row.status,
      Or(row.goal, live.goal), live.progress, Or(row.exit, live.exit), Or(row.summary, live.summary),
      Or(live.reason, row.reason), Or(row.usage, live.usage), Or(row.workspace, live.workspace), live.rev)
  }

  function MergedAt(live: map<string, View>, rows: map<string, View>, id: string): View
    requires id in live || id in rows
  {
    if id !in rows then live[id] else if id !in live then rows[id] else MergeView(live[id], rows[id])
  }

  function Merged(live: map<string, View>, rows: map<string, View>): map<string, View> {
    map id | id in live.Keys + rows.Keys :: MergedAt(live, rows, id)
  }

  function Without(order: seq<string>, ids: seq<string>): seq<string> {
    if order == [] then []
    else
      var kept := Without(order[..|order| - 1], ids);
      if order[|order| - 1] in ids then kept else kept + [order[|order| - 1]]
  }

  function Merge(s: Lanes, rows: seq<Row>): Lanes {
    var hydrated := FromRows(rows);
    Lanes(s.seen, Merged(s.byId, hydrated.byId), hydrated.order + Without(s.order, hydrated.order))
  }

  lemma ViewsKeys(rows: seq<Row>, id: string)
    ensures id in Views(rows) <==> id in Ids(rows)
  {
    if rows != [] {
      var before, row := rows[..|rows| - 1], rows[|rows| - 1];
      ViewsKeys(before, id);
      assert Ids(rows) == Ids(before) + [row.id];
    }
  }

  /** What a merge has come to once it has handled the rows of `done`. */
  ghost predicate MergedUpTo(
    live: map<string, View>, rows: map<string, View>, done: set<string>, byId: map<string, View>) {
    && done <= rows.Keys
    && byId.Keys == live.Keys + done
    && (forall id | id in byId :: byId[id] == if id in done then MergedAt(live, rows, id) else live[id])
  }

  lemma MergedOneMore(
    live: map<string, View>, rows: map<string, View>, done: set<string>, byId: map<string, View>, id: string)
    requires MergedUpTo(live, rows, done, byId) && id in rows
    ensures MergedUpTo(live, rows, done + {id}, byId[id := MergedAt(live, rows, id)])
  {
  }

  method MergeLanesFromRows(s: Lanes, rows: seq<Row>) returns (merged: Lanes)
    ensures merged == Merge(s, rows)
  {
    var hydrated := LanesFromRows(rows);
    var byId := s.byId;
    forall id ensures id in hydrated.byId <==> id in hydrated.order {
      ViewsKeys(ByCreation(rows), id);
    }
    ghost var done := {};
    for i := 0 to |hydrated.order|
      invariant MergedUpTo(s.byId, hydrated.byId, done, byId)
      invariant forall j | 0 <= j < i :: hydrated.order[j] in done
    {
      var id := hydrated.order[i];
      var row := hydrated.byId[id];
      MergedOneMore(s.byId, hydrated.byId, done, byId, id);
      byId := byId[id := if id in s.byId then MergeView(s.byId[id], row) else row];
      done := done + {id};
    }
    assert done == hydrated.byId.Keys;
    assert byId == Merged(s.byId, hydrated.byId);
    merged := Lanes(s.seen, byId, hydrated.order + Without(s.order, hydrated.order));
  }

  // ---- what every event and every merge keeps ----

  predicate Distinct(ids: seq<string>) {
    forall i, j | 0 <= i < j < |ids| :: ids[i] != ids[j]
  }

  /** `order` lists exactly the lanes of `byId`, each once, and each under its own id. */
  ghost predicate Coherent(s: Lanes) {
    && Distinct(s.order)
    && (forall id :: id in s.byId <==> id in s.order)
    && (forall id | id in s.byId :: s.byId[id].id == id)
  }

  lemma ReduceCoherent(s: Lanes, ev: Event)
    requires Coherent(s)
    ensures Coherent(Reduce(s, ev))
  {
    var next := Reduce(s, ev);
    if next != s {
      var id := LaneIdOf(ev).value;
      assert id in s.order ==> id in s.byId;
      assert forall x :: x in s.order + [id] <==> x in s.order || x == id;
    }
  }

  lemma IdsSnoc(rows: seq<Row>, row: Row)
    ensures multiset(Ids(rows + [row])) == multiset(Ids(rows)) + multiset{row.id}
  {
    assert Ids(rows + [row]) == Ids(rows) + [row.id];
  }

  lemma {:induction false} InsertPermutes(sorted: seq<Row>, row: Row)
    ensures multiset(Ids(Insert(sorted, row))) == multiset(Ids(sorted)) + multiset{row.id}
    ensures multiset(Insert(sorted, row)) == multiset(sorted) + multiset{row}
  {
    if sorted == [] || sorted[|sorted| - 1].createdAt <= row.createdAt {
      IdsSnoc(sorted, row);
    } else {
      var before, last := sorted[..|sorted| - 1], sorted[|sorted| - 1];
      InsertPermutes(before, row);
      assert sorted == before + [last];
      IdsSnoc(before, last);
      IdsSnoc(Insert(before, row), last);
    }
  }

  lemma {:induction false} SortPermutes(rows: seq<Row>)
    ensures multiset(Ids(ByCreation(rows))) == multiset(Ids(rows))
    ensures multiset(ByCreation(rows)) == multiset(rows)
  {
    if rows != [] {
      var before, row := rows[..|rows| - 1], rows[|rows| - 1];
      SortPermutes(before);
      SortedOneMore(before, row, ByCreation(before), rows);
    }
  }

  lemma {:induction false} SortedOneMore(before: seq<Row>, row: Row, sorted: seq<Row>, rows: seq<Row>)
    requires multiset(Ids(sorted)) == multiset(Ids(before)) && multiset(sorted) == multiset(before)
    requires rows == before + [row]
    ensures multiset(Ids(Insert(sorted, row))) == multiset(Ids(rows))
    ensures multiset(Insert(sorted, row)) == multiset(rows)
  {
    InsertPermutes(sorted, row);
    IdsSnoc(before, row);
  }

  lemma DistinctIsOnce(ids: seq<string>)
    ensures Distinct(ids) <==> forall id :: multiset(ids)[id] <= 1
  {
    if ids != [] {
      var before, last := ids[..|ids| - 1], ids[|ids| - 1];
      DistinctIsOnce(before);
      assert ids == before + [last];
      assert last in before <==> multiset(before)[last] > 0;
      if forall id :: multiset(ids)[id] <= 1 {
        forall id ensures multiset(before)[id] <= 1 {
          assert multiset(ids)[id] == multiset(before)[id] + multiset([last])[id];
        }
        assert multiset(ids)[last] == multiset(before)[last] + 1;
      }
    }
  }

  lemma {:induction false} WithoutIs(order: seq<string>, ids: seq<string>)
    requires Distinct(order)
    ensures Distinct(Without(order, ids))
    ensures forall id :: id in Without(order, ids) <==> id in order && id !in ids
  {
    if order != [] {
      var before, last := order[..|order| - 1], order[|order| - 1];
      WithoutIs(before, ids);
      assert order == before + [last];
      assert last !in before;
    }
  }

  lemma {:induction false} ViewsMeans(rows: seq<Row>, id: string)
    ensures id in Views(rows) <==> id in Ids(rows)
    ensures id in Views(rows) ==> exists i :: 0 <= i < |rows| && rows[i].id == id && Views(rows)[id] == ViewOf(rows[i])
  {
    ViewsKeys(rows, id);
    if rows != [] {
      ViewsMeans(rows[..|rows| - 1], id);
    }
  }

  lemma {:induction false} HydratedIds(rows: seq<Row>, id: string)
    requires Distinct(Ids(rows))
    ensures Distinct(Ids(ByCreation(rows)))
    ensures id in Ids(ByCreation(rows)) ==> exists i :: 0 <= i < |rows| && rows[i].id == id
  {
    SortPermutes(rows);
    DistinctIsOnce(Ids(rows));
    DistinctIsOnce(Ids(ByCreation(rows)));
    if id in Ids(ByCreation(rows)) {
      assert id in multiset(Ids(rows));
    }
  }

  lemma {:induction false} HydratedRow(rows: seq<Row>, i: nat)
    requires Distinct(Ids(rows)) && i < |rows|
    ensures rows[i].id in Views(ByCreation(rows)) && Views(ByCreation(rows))[rows[i].id] == ViewOf(rows[i])
  {
    var ordered, row := ByCreation(rows), rows[i];
    SortPermutes(rows);
    HydratedIds(rows, "");
    assert row in multiset(ordered);
    var j :| 0 <= j < |ordered| && ordered[j] == row;
    ViewOfOnly(ordered, j);
  }

  lemma {:induction false} ViewOfOnly(rows: seq<Row>, j: nat)
    requires Distinct(Ids(rows)) && j < |rows|
    ensures rows[j].id in Views(rows) && Views(rows)[rows[j].id] == ViewOf(rows[j])
  {
    ViewsMeans(rows, rows[j].id);
    assert Ids(rows)[j] == rows[j].id;
  }

  /** With one row a lane, hydrating gives each row its view, under its own id and in order of creation. */
  lemma {:induction false} FromRowsCoherent(rows: seq<Row>)
    requires Distinct(Ids(rows))
    ensures Coherent(FromRows(rows))
    ensures forall i | 0 <= i < |rows| ::
      rows[i].id in FromRows(rows).byId && FromRows(rows).byId[rows[i].id] == ViewOf(rows[i])
    ensures forall id | id in FromRows(rows).byId :: exists i :: 0 <= i < |rows| && rows[i].id == id
  {
    var ordered := ByCreation(rows);
    HydratedIds(rows, "");
    forall id ensures id in Views(ordered) <==> id in Ids(ordered)
      ensures id in Views(ordered) ==> Views(ordered)[id].id == id && exists i :: 0 <= i < |rows| && rows[i].id == id {
      ViewsMeans(ordered, id);
      HydratedIds(rows, id);
    }
    forall i | 0 <= i < |rows| ensures rows[i].id in Views(ordered) && Views(ordered)[rows[i].id] == ViewOf(rows[i]) {
      HydratedRow(rows, i);
    }
  }

  lemma DistinctAppend(a: seq<string>, b: seq<string>)
    requires Distinct(a) && Distinct(b) && forall i | 0 <= i < |b| :: b[i] !in a
    ensures Distinct(a + b)
    ensures forall id :: id in a + b <==> id in a || id in b
  {
  }

  lemma MergedLists(s: Lanes, h: Lanes, id: string)
    requires Coherent(s) && Coherent(h)
    ensures id in Merged(s.byId, h.byId) <==> id in h.order + Without(s.order, h.order)
    ensures id in Merged(s.byId, h.byId) ==> Merged(s.byId, h.byId)[id].id == id
  {
    WithoutIs(s.order, h.order);
    DistinctAppend(h.order, Without(s.order, h.order));
    assert id in Merged(s.byId, h.byId) <==> id in s.byId || id in h.byId;
  }

  lemma {:induction false} MergeCoherent(s: Lanes, rows: seq<Row>)
    requires Coherent(s) && Distinct(Ids(rows))
    ensures Coherent(Merge(s, rows))
  {
    var h := FromRows(rows);
    FromRowsCoherent(rows);
    WithoutIs(s.order, h.order);
    DistinctAppend(h.order, Without(s.order, h.order));
    var m := Merge(s, rows);
    forall id ensures id in m.byId <==> id in m.order ensures id in m.byId ==> m.byId[id].id == id {
      MergedLists(s, h, id);
    }
  }

  lemma MergedTwice(live: map<string, View>, rows: map<string, View>)
    requires forall id | id in rows :: rows[id].rev == 0 && rows[id].progress == [] && rows[id].reason == None
    ensures Merged(Merged(live, rows), rows) == Merged(live, rows)
  {
    var once := Merged(live, rows);
    forall id | id in once ensures MergedAt(once, rows, id) == once[id] {
      if id in rows && id in live {
        assert once[id] == MergeView(live[id], rows[id]);
      }
    }
  }

  lemma WithoutTwice(order: seq<string>, ids: seq<string>)
    requires Distinct(order)
    ensures Without(ids + Without(order, ids), ids) == Without(order, ids)
  {
    WithoutIs(order, ids);
    WithoutAppend(ids, Without(order, ids), ids);
    WithoutAll(ids, ids);
    WithoutNone(Without(order, ids), ids);
  }

  /** A merge of the same rows again changes nothing. */
  lemma MergeIdempotent(s: Lanes, rows: seq<Row>)
    requires Distinct(s.order)
    ensures Merge(Merge(s, rows), rows) == Merge(s, rows)
  {
    var h := FromRows(rows);
    forall id | id in h.byId ensures h.byId[id].rev == 0 && h.byId[id].progress == [] && h.byId[id].reason == None {
      ViewsMeans(ByCreation(rows), id);
    }
    MergedTwice(s.byId, h.byId);
    WithoutTwice(s.order, h.order);
  }

  lemma {:induction false} WithoutAppend(a: seq<string>, b: seq<string>, ids: seq<string>)
    ensures Without(a + b, ids) == Without(a, ids) + Without(b, ids)
  {
    if b == [] {
      assert a + b == a;
    } else {
      assert (a + b)[..|a + b| - 1] == a + b[..|b| - 1];
      WithoutAppend(a, b[..|b| - 1], ids);
    }
  }

  lemma {:induction false} WithoutAll(order: seq<string>, ids: seq<string>)
    requires forall i | 0 <= i < |order| :: order[i] in ids
    ensures Without(order, ids) == []
  {
    if order != [] {
      WithoutAll(order[..|order| - 1], ids);
    }
  }

  lemma {:induction false} WithoutNone(order: seq<string>, ids: seq<string>)
    requires forall i | 0 <= i < |order| :: order[i] !in ids
    ensures Without(order, ids) == order
  {
    if order != [] {
      WithoutNone(order[..|order| - 1], ids);
    }
  }

  /** What a merge makes of a lane it has a row for, and of one it has none for. */
  lemma {:induction false} MergedView(s: Lanes, rows: seq<Row>, id: string)
    requires Distinct(Ids(rows)) && id in s.byId
    ensures id in Merge(s, rows).byId
    ensures forall i | 0 <= i < |rows| && rows[i].id == id ::
      Merge(s, rows).byId[id] == MergeView(s.byId[id], ViewOf(rows[i]))
    ensures id !in Ids(rows) ==> Merge(s, rows).byId[id] == s.byId[id]
  {
    FromRowsCoherent(rows);
    assert Merge(s, rows).byId[id] == MergedAt(s.byId, FromRows(rows).byId, id);
  }

  /**
   * A merge forgets no lane and nothing that only events carry, and a lane events have touched goes to the higher
   * of the two ranks.
   */
  lemma {:induction false} MergeKeeps(s: Lanes, rows: seq<Row>, id: string)
    requires Distinct(Ids(rows)) && id in s.byId
    ensures var m := Merge(s, rows);
      && m.seen == s.seen && id in m.byId
      && m.byId[id].progress == s.byId[id].progress
      && m.byId[id].rev == s.byId[id].rev
      && (s.byId[id].reason.Some? ==> m.byId[id].reason == s.byId[id].reason)
      && (id !in Ids(rows) ==> m.byId[id] == s.byId[id])
    ensures forall i | 0 <= i < |rows| && rows[i].id == id ::
      var live, now := s.byId[id].status, Merge(s, rows).byId[id].status;
      if s.byId[id].rev == 0 then now == rows[i].status
      else Rank(now) == (if Rank(live) >= Rank(rows[i].status) then Rank(live) else Rank(rows[i].status))
           && (now == live || (now == rows[i].status && Rank(now) > Rank(live)))
  {
    MergedView(s, rows, id);
    assert id in Ids(rows) ==> exists i :: 0 <= i < |rows| && rows[i].id == id;
  }
}
