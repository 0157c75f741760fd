/** The columns of the board and what a drop writes (apps/web/src/board.ts:54-137, 262-308). */
module BoardColumns {
  import opened Order
  import opened Board

  datatype Phase = Phase(id: string, dropped: bool)
  datatype Column = Column(id: string, isPhase: bool, tasks: seq<Task>)

  function ColumnOf(t: Task): Option<string> {
    match t.status
    case Dropped => None
    case Done => Some("done")
    case _ =>
      if Truthy(t.blockedReason) then Some("waiting")
      else if t.status == Later then Some("later") else Some("now")
  }

  function Select(tasks: seq<Task>, p: Task -> bool): seq<Task> {
    if tasks == [] then []
    else (if p(tasks[0]) then [tasks[0]] else []) + Select(tasks[1..], p)
  }

  function LivePhases(phases: seq<Phase>): seq<Phase> {
    if phases == [] then []
    else (if phases[0].dropped then [] else [phases[0]]) + LivePhases(phases[1..])
  }

  predicate Open(t: Task) { t.status == Now || t.status == Later }

  predicate Unphased(t: Task, live: seq<Phase>) {
    !Truthy(t.phaseId) || forall p | p in live :: Some(p.id) != t.phaseId
  }

  function InStatus(id: string): Task -> bool { t => ColumnOf(t) == Some(id) }

  function InPhase(id: string): Task -> bool { (t: Task) => Open(t) && t.phaseId == Some(id) }

  function InNoPhase(live: seq<Phase>): Task -> bool { t => Open(t) && Unphased(t, live) }

  function IsDone(): Task -> bool { (t: Task) => t.status == Done }

  function StatusColumn(tasks: seq<Task>, id: string): Column {
    Column(id, false, Sort(Select(tasks, InStatus(id))))
  }

  function PhaseColumns(tasks: seq<Task>, live: seq<Phase>): seq<Column> {
    if live == [] then []
    else
      [Column(live[0].id, true, Sort(Select(tasks, InPhase(live[0].id))))]
      + PhaseColumns(tasks, live[1..])
  }

  function UnphasedColumn(tasks: seq<Task>, live: seq<Phase>): seq<Column> {
    var unphased := Select(tasks, InNoPhase(live));
    if unphased == [] then [] else [Column("now", false, Sort(unphased))]
  }

  function BuildBoard(tasks: seq<Task>, phases: seq<Phase>): seq<Column> {
    var live := LivePhases(phases);
    if live == [] then
      [StatusColumn(tasks, "now"), StatusColumn(tasks, "waiting"),
       StatusColumn(tasks, "later"), StatusColumn(tasks, "done")]
    else
      PhaseColumns(tasks, live) + UnphasedColumn(tasks, live)
      + [Column("done", false, Sort(Select(tasks, IsDone())))]
  }

  /** How often the board shows a task, over all its columns. */
  function Shown(board: seq<Column>, t: Task): nat {
    if board == [] then 0 else multiset(board[0].tasks)[t] + Shown(board[1..], t)
  }

  /** How many columns claim a phase id. */
  function Claims(live: seq<Phase>, phaseId: Option<string>): nat {
    if live == [] then 0
    else (if Some(live[0].id) == phaseId then 1 else 0) + Claims(live[1..], phaseId)
  }

  lemma {:induction false} SelectCounts(tasks: seq<Task>, p: Task -> bool, t: Task)
    ensures multiset(Select(tasks, p))[t] == if p(t) then multiset(tasks)[t] else 0
  {
    if tasks != [] {
      SelectCounts(tasks[1..], p, t);
      assert tasks == [tasks[0]] + tasks[1..];
    }
  }

  lemma {:induction false} ShownAppend(a: seq<Column>, b: seq<Column>, t: Task)
    ensures Shown(a + b, t) == Shown(a, t) + Shown(b, t)
  {
    if a == [] {
      assert a + b == b;
    } else {
      assert (a + b)[1..] == a[1..] + b;
      ShownAppend(a[1..], b, t);
    }
  }

  lemma ShownOnce(c: Column, tasks: seq<Task>, p: Task -> bool, t: Task)
    requires c.tasks == Sort(Select(tasks, p))
    ensures Shown([c], t) == if p(t) then multiset(tasks)[t] else 0
  {
    SortPermutes(Select(tasks, p));
    SelectCounts(tasks, p, t);
    assert [c][1..] == [];
  }

  lemma TimesOneMore(m: nat, k: nat)
    ensures m * (1 + k) == m + m * k
  {
  }

  lemma {:induction false} PhaseColumnsShow(tasks: seq<Task>, live: seq<Phase>, t: Task)
    ensures Shown(PhaseColumns(tasks, live), t)
      == if Open(t) then multiset(tasks)[t] * Claims(live, t.phaseId) else 0
  {
    if live != [] {
      var k := Claims(live[1..], t.phaseId);
      PhaseColumnsShow(tasks, live[1..], t);
      FirstPhaseShows(tasks, live, t);
      TimesOneMore(multiset(tasks)[t], k);
      assert Claims(live, t.phaseId) == if t.phaseId == Some(live[0].id) then 1 + k else k;
    }
  }

  lemma {:induction false} FirstPhaseShows(tasks: seq<Task>, live: seq<Phase>, t: Task)
    requires live != []
    ensures Shown(PhaseColumns(tasks, live), t) == Shown(PhaseColumns(tasks, live[1..]), t)
      + if Open(t) && t.phaseId == Some(live[0].id) then multiset(tasks)[t] else 0
  {
    var id := live[0].id;
    var c := Column(id, true, Sort(Select(tasks, InPhase(id))));
    ShownOnce(c, tasks, InPhase(id), t);
    ShownAppend([c], PhaseColumns(tasks, live[1..]), t);
    assert PhaseColumns(tasks, live) == [c] + PhaseColumns(tasks, live[1..]);
  }

  lemma UnphasedColumnShows(tasks: seq<Task>, live: seq<Phase>, t: Task)
    ensures Shown(UnphasedColumn(tasks, live), t)
      == if Open(t) && Unphased(t, live) then multiset(tasks)[t] else 0
  {
    var p := InNoPhase(live);
    SelectCounts(tasks, p, t);
    if Select(tasks, p) != [] {
      ShownOnce(Column("now", false, Sort(Select(tasks, p))), tasks, p, t);
    }
  }

  /** How often a task is shown, for every board: not at all when dropped, else by its claims. */
  lemma ShownExact(tasks: seq<Task>, phases: seq<Phase>, t: Task)
    ensures var live := LivePhases(phases);
      Shown(BuildBoard(tasks, phases), t) ==
        if t.status == Dropped then 0
        else if live == [] || t.status == Done then multiset(tasks)[t]
        else multiset(tasks)[t] * Claims(live, t.phaseId) + (if Unphased(t, live) then multiset(tasks)[t] else 0)
  {
    var live := LivePhases(phases);
    if live == [] {
      StatusBoardShows(tasks, t);
    } else {
      var done := Column("done", false, Sort(Select(tasks, IsDone())));
      PhaseColumnsShow(tasks, live, t);
      UnphasedColumnShows(tasks, live, t);
      ShownOnce(done, tasks, IsDone(), t);
      ShownAppend(PhaseColumns(tasks, live), UnphasedColumn(tasks, live), t);
      ShownAppend(PhaseColumns(tasks, live) + UnphasedColumn(tasks, live), [done], t);
      assert BuildBoard(tasks, phases) == PhaseColumns(tasks, live) + UnphasedColumn(tasks, live) + [done];
    }
  }

  lemma ShownFour(a: Column, b: Column, c: Column, d: Column, t: Task)
    ensures Shown([a, b, c, d], t)
      == multiset(a.tasks)[t] + multiset(b.tasks)[t] + multiset(c.tasks)[t] + multiset(d.tasks)[t]
  {
    calc {
      Shown([a, b, c, d], t);
      { assert [a, b, c, d][1..] == [b, c, d]; }
      multiset(a.tasks)[t] + Shown([b, c, d], t);
      { assert [b, c, d][1..] == [c, d]; }
      multiset(a.tasks)[t] + multiset(b.tasks)[t] + Shown([c, d], t);
      { assert [c, d][1..] == [d]; }
      multiset(a.tasks)[t] + multiset(b.tasks)[t] + multiset(c.tasks)[t] + Shown([d], t);
      { assert [d][1..] == []; }
      multiset(a.tasks)[t] + multiset(b.tasks)[t] + multiset(c.tasks)[t] + multiset(d.tasks)[t];
    }
  }

  lemma StatusColumnShows(tasks: seq<Task>, id: string, t: Task)
    ensures multiset(StatusColumn(tasks, id).tasks)[t] == if ColumnOf(t) == Some(id) then multiset(tasks)[t] else 0
  {
    SortPermutes(Select(tasks, InStatus(id)));
    SelectCounts(tasks, InStatus(id), t);
  }

  lemma ColumnNamesDiffer()
    ensures "now" != "done" && "now" != "waiting" && "now" != "later"
    ensures "done" != "waiting" && "done" != "later" && "waiting" != "later"
  {
    assert |"now"| == 3 && |"done"| == 4 && |"later"| == 5 && |"waiting"| == 7;
  }

  lemma StatusBoardShows(tasks: seq<Task>, t: Task)
    ensures Shown(BuildBoard(tasks, []), t) == if t.status == Dropped then 0 else multiset(tasks)[t]
  {
    ColumnNamesDiffer();
    StatusColumnShows(tasks, "now", t);
    StatusColumnShows(tasks, "waiting", t);
    StatusColumnShows(tasks, "later", t);
    StatusColumnShows(tasks, "done", t);
    ShownFour(StatusColumn(tasks, "now"), StatusColumn(tasks, "waiting"),
              StatusColumn(tasks, "later"), StatusColumn(tasks, "done"), t);
  }

  /** Phases that claim each id at most once, and never the empty one. */
  predicate WellNamed(live: seq<Phase>) {
    && (forall p | p in live :: p.id != "")
    && (forall i, j | 0 <= i < j < |live| :: live[i].id != live[j].id)
  }

  /** Every task is shown exactly as often as it is a row, unless it was dropped. */
  ghost predicate Conserves(phases: seq<Phase>) {
    forall tasks, t :: Shown(BuildBoard(tasks, phases), t) == if t.status == Dropped then 0 else multiset(tasks)[t]
  }

  lemma {:induction false} ClaimsMember(live: seq<Phase>, phaseId: Option<string>)
    ensures Claims(live, phaseId) > 0 <==> exists p :: p in live && Some(p.id) == phaseId
  {
    if live != [] {
      ClaimsMember(live[1..], phaseId);
      assert live == [live[0]] + live[1..];
    }
  }

  lemma {:induction false} ClaimsAtMostOnce(live: seq<Phase>, phaseId: Option<string>)
    requires forall i, j | 0 <= i < j < |live| :: live[i].id != live[j].id
    ensures Claims(live, phaseId) <= 1
  {
    if live != [] {
      ClaimsAtMostOnce(live[1..], phaseId);
      ClaimsMember(live[1..], phaseId);
    }
  }

  lemma {:induction false} ClaimsTwice(live: seq<Phase>, i: nat, j: nat)
    requires i < j < |live| && live[i].id == live[j].id
    ensures Claims(live, Some(live[i].id)) >= 2
  {
    if i == 0 {
      assert live[1..][j - 1] == live[j] && live[1..][j - 1] in live[1..];
      ClaimsMember(live[1..], Some(live[0].id));
    } else {
      ClaimsTwice(live[1..], i - 1, j - 1);
    }
  }

  lemma SomeIdClaimedTwice(live: seq<Phase>) returns (id: string)
    requires !WellNamed(live)
    ensures Claims(live, Some(id)) >= 2 || (id == "" && Claims(live, Some(id)) >= 1)
  {
    if p :| p in live && p.id == "" {
      ClaimsMember(live, Some(""));
      id := "";
    } else {
      var i, j :| 0 <= i < j < |live| && live[i].id == live[j].id;
      ClaimsTwice(live, i, j);
      id := live[i].id;
    }
  }

  lemma {:induction false} WellNamedConserves(phases: seq<Phase>, tasks: seq<Task>, t: Task)
    requires WellNamed(LivePhases(phases))
    ensures Shown(BuildBoard(tasks, phases), t) == if t.status == Dropped then 0 else multiset(tasks)[t]
  {
    ShownExact(tasks, phases, t);
    ClaimedOrUnphased(LivePhases(phases), t);
    TimesClaims(multiset(tasks)[t], Claims(LivePhases(phases), t.phaseId));
  }

  lemma TimesClaims(m: nat, claims: nat)
    ensures claims == 0 ==> m * claims == 0
    ensures claims == 1 ==> m * claims == m
  {
  }

  lemma {:induction false} ClaimedOrUnphased(live: seq<Phase>, t: Task)
    requires WellNamed(live)
    ensures Claims(live, t.phaseId) == if Unphased(t, live) then 0 else 1
  {
    ClaimsAtMostOnce(live, t.phaseId);
    ClaimsMember(live, t.phaseId);
  }

  lemma {:induction false} NotWellNamedLoses(phases: seq<Phase>) returns (tasks: seq<Task>, t: Task)
    requires !WellNamed(LivePhases(phases))
    ensures t.status == Now && multiset(tasks)[t] == 1 && Shown(BuildBoard(tasks, phases), t) > 1
  {
    var id := SomeIdClaimedTwice(LivePhases(phases));
    t := Task("t", Now, "", None, None, Some(id));
    tasks := [t];
    ShownExact(tasks, phases, t);
    var live := LivePhases(phases);
    ClaimsMember(live, t.phaseId);
    assert multiset(tasks)[t] == 1;
    OnceClaimed(Claims(live, t.phaseId), 1);
  }

  lemma OnceClaimed(claims: nat, m: nat)
    ensures m == 1 ==> m * claims == claims
  {
  }

  /** The board conserves tasks exactly when its live phases are named apart and none is empty. */
  lemma ConservationExact(phases: seq<Phase>)
    ensures Conserves(phases) <==> WellNamed(LivePhases(phases))
  {
    if WellNamed(LivePhases(phases)) {
      forall tasks, t
        ensures Shown(BuildBoard(tasks, phases), t) == if t.status == Dropped then 0 else multiset(tasks)[t]
      {
        WellNamedConserves(phases, tasks, t);
      }
    } else {
      var tasks, t := NotWellNamedLoses(phases);
      assert !Conserves(phases);
    }
  }

  // ---- which columns there are, and how each is sorted ----

  /** The live phases are the phases that were not dropped, in their order. */
  lemma {:induction false} LivePhasesAppend(a: seq<Phase>, b: seq<Phase>)
    ensures LivePhases(a + b) == LivePhases(a) + LivePhases(b)
    ensures forall p :: p in LivePhases(a) <==> p in a && !p.dropped
  {
    if a == [] {
      assert a + b == b;
    } else {
      assert (a + b)[1..] == a[1..] + b;
      LivePhasesAppend(a[1..], b);
    }
  }

  predicate AnyUnphased(tasks: seq<Task>, live: seq<Phase>) {
    exists t | t in tasks :: (t.status == Now || t.status == Later) && Unphased(t, live)
  }

  function Names(board: seq<Column>): (r: seq<(string, bool)>)
    ensures |r| == |board| && forall i | 0 <= i < |board| :: r[i] == (board[i].id, board[i].isPhase)
  {
    if board == [] then [] else [(board[0].id, board[0].isPhase)] + Names(board[1..])
  }

  function PhaseNames(live: seq<Phase>): (r: seq<(string, bool)>)
    ensures |r| == |live| && forall i | 0 <= i < |live| :: r[i] == (live[i].id, true)
  {
    if live == [] then [] else [(live[0].id, true)] + PhaseNames(live[1..])
  }

  lemma {:induction false} PhaseColumnsNamed(tasks: seq<Task>, live: seq<Phase>)
    ensures Names(PhaseColumns(tasks, live)) == PhaseNames(live)
  {
    if live != [] {
      PhaseColumnsNamed(tasks, live[1..]);
      assert PhaseColumns(tasks, live)[1..] == PhaseColumns(tasks, live[1..]);
    }
  }

  lemma UnphasedColumnNamed(tasks: seq<Task>, live: seq<Phase>)
    ensures Names(UnphasedColumn(tasks, live)) == if AnyUnphased(tasks, live) then [("now", false)] else []
  {
    var p := InNoPhase(live);
    var chosen := Select(tasks, p);
    if chosen != [] {
      SelectCounts(tasks, p, chosen[0]);
      assert multiset(chosen)[chosen[0]] > 0;
      assert chosen[0] in multiset(tasks);
    }
    if t :| t in tasks && (t.status == Now || t.status == Later) && Unphased(t, live) {
      SelectCounts(tasks, p, t);
      assert multiset(tasks)[t] > 0;
    }
  }

  lemma NamesAppend(a: seq<Column>, b: seq<Column>)
    ensures Names(a + b) == Names(a) + Names(b)
  {
  }

  /**
   * The board has the four status columns, or else a column for each live phase in their order, then
   * Unphased exactly when some open task is in no live phase, and Done last.
   */
  lemma ColumnsExactly(tasks: seq<Task>, phases: seq<Phase>)
    ensures var live := LivePhases(phases);
      Names(BuildBoard(tasks, phases)) ==
        if live == [] then [("now", false), ("waiting", false), ("later", false), ("done", false)]
        else PhaseNames(live) + (if AnyUnphased(tasks, live) then [("now", false)] else []) + [("done", false)]
  {
    var live := LivePhases(phases);
    if live != [] {
      var done := Column("done", false, Sort(Select(tasks, IsDone())));
      PhaseColumnsNamed(tasks, live);
      UnphasedColumnNamed(tasks, live);
      NamesAppend(PhaseColumns(tasks, live), UnphasedColumn(tasks, live));
      NamesAppend(PhaseColumns(tasks, live) + UnphasedColumn(tasks, live), [done]);
    }
  }

  predicate AllSorted(board: seq<Column>) { forall c | c in board :: Sorted(c.tasks) }

  lemma {:induction false} SelectDistinct(tasks: seq<Task>, p: Task -> bool)
    requires DistinctIds(tasks)
    ensures DistinctIds(Select(tasks, p)) && forall t | t in Select(tasks, p) :: t in tasks
  {
    if tasks != [] {
      SelectDistinct(tasks[1..], p);
      assert forall t | t in tasks[1..] :: t.id != tasks[0].id;
    }
  }

  lemma SelectSorted(tasks: seq<Task>, p: Task -> bool)
    requires DistinctIds(tasks)
    ensures Sorted(Sort(Select(tasks, p)))
  {
    SelectDistinct(tasks, p);
    SortSorts(Select(tasks, p));
  }

  lemma {:induction false} PhaseColumnsSorted(tasks: seq<Task>, live: seq<Phase>)
    requires DistinctIds(tasks)
    ensures AllSorted(PhaseColumns(tasks, live))
  {
    if live != [] {
      PhaseColumnsSorted(tasks, live[1..]);
      SelectSorted(tasks, InPhase(live[0].id));
    }
  }

  lemma SortedAppend(a: seq<Column>, b: seq<Column>)
    requires AllSorted(a) && AllSorted(b)
    ensures AllSorted(a + b)
  {
  }

  lemma SortedColumn(tasks: seq<Task>, id: string, p: Task -> bool)
    requires DistinctIds(tasks)
    ensures AllSorted([Column(id, false, Sort(Select(tasks, p)))])
  {
    SelectSorted(tasks, p);
  }

  lemma StatusColumnsSorted(tasks: seq<Task>)
    requires DistinctIds(tasks)
    ensures AllSorted(BuildBoard(tasks, []))
  {
    var now, waiting := StatusColumn(tasks, "now"), StatusColumn(tasks, "waiting");
    var later, done := StatusColumn(tasks, "later"), StatusColumn(tasks, "done");
    SortedColumn(tasks, "now", InStatus("now"));
    SortedColumn(tasks, "waiting", InStatus("waiting"));
    SortedColumn(tasks, "later", InStatus("later"));
    SortedColumn(tasks, "done", InStatus("done"));
    SortedAppend([now], [waiting]);
    SortedAppend([now] + [waiting], [later]);
    SortedAppend([now] + [waiting] + [later], [done]);
    assert BuildBoard(tasks, []) == [now] + [waiting] + [later] + [done];
  }

  /** Every column of every board is sorted by order key, then time of creation, then id. */
  lemma ColumnsSorted(tasks: seq<Task>, phases: seq<Phase>)
    requires DistinctIds(tasks)
    ensures AllSorted(BuildBoard(tasks, phases))
  {
    var live := LivePhases(phases);
    if live == [] {
      StatusColumnsSorted(tasks);
      assert BuildBoard(tasks, phases) == BuildBoard(tasks, []);
    } else {
      PhaseColumnsSorted(tasks, live);
      SortedColumn(tasks, "now", InNoPhase(live));
      SortedColumn(tasks, "done", IsDone());
      SortedAppend(PhaseColumns(tasks, live), UnphasedColumn(tasks, live));
      SortedAppend(PhaseColumns(tasks, live) + UnphasedColumn(tasks, live),
        [Column("done", false, Sort(Select(tasks, IsDone())))]);
    }
  }

  // ---- what a drop writes ----

  /** An absent field is left alone; a present None clears it. */
  datatype DropUpdate = DropUpdate(
    orderKey: string,
    status: Option<Status>,
    blockedReason: Option<Option<string>>,
    phaseId: Option<Option<string>>,
    needsReason: bool)

  function UpdateForDrop(t: Task, to: string, orderKey: string, isPhase: bool): DropUpdate {
    if isPhase then DropUpdate(orderKey, Some(Now), Some(None), Some(Some(to)), false)
    else if to == "waiting" then DropUpdate(orderKey, None, None, None, !Truthy(t.blockedReason))
    else if to == "done" then DropUpdate(orderKey, Some(Done), Some(None), None, false)
    else if to == "later" then DropUpdate(orderKey, Some(Later), Some(None), None, false)
    else if to == "now" then DropUpdate(orderKey, Some(Now), Some(None), None, false)
    else DropUpdate(orderKey, None, None, None, false)
  }

  /** The row after the write; `reason` is what the operator answers when asked for one. */
  function Apply(t: Task, u: DropUpdate, reason: string): Task {
    t.(orderKey := Some(u.orderKey),
       status := if u.status.Some? then u.status.value else t.status,
       blockedReason := if u.needsReason then Some(reason)
                        else if u.blockedReason.Some? then u.blockedReason.value else t.blockedReason,
       phaseId := if u.phaseId.Some? then u.phaseId.value else t.phaseId)
  }

  predicate Shows(board: seq<Column>, to: string, isPhase: bool, t: Task) {
    exists c | c in board :: c.id == to && c.isPhase == isPhase && t in c.tasks
  }

  /** The columns a card can be dropped on. */
  predicate Offered(phases: seq<Phase>, to: string, isPhase: bool) {
    var live := LivePhases(phases);
    if isPhase then exists p | p in live :: p.id == to
    else if live == [] then to == "now" || to == "waiting" || to == "later" || to == "done"
    else to == "now" || to == "done"
  }

  lemma SortSelectMember(tasks: seq<Task>, p: Task -> bool, t: Task)
    ensures t in Sort(Select(tasks, p)) <==> t in tasks && p(t)
  {
    SortPermutes(Select(tasks, p));
    SelectCounts(tasks, p, t);
    SameElements(Sort(Select(tasks, p)), Select(tasks, p));
    assert t in Select(tasks, p) <==> multiset(Select(tasks, p))[t] > 0;
    assert t in tasks <==> multiset(tasks)[t] > 0;
  }

  lemma {:induction false} PhaseColumnShows(tasks: seq<Task>, live: seq<Phase>, to: string, t: Task)
    ensures forall c | c in PhaseColumns(tasks, live) :: c.isPhase
    ensures Shows(PhaseColumns(tasks, live), to, true, t)
      <==> t in tasks && Open(t) && t.phaseId == Some(to) && (exists p | p in live :: p.id == to)
  {
    if live != [] {
      PhaseColumnShows(tasks, live[1..], to, t);
      SortSelectMember(tasks, InPhase(live[0].id), t);
      var first := PhaseColumns(tasks, live)[0];
      assert PhaseColumns(tasks, live) == [first] + PhaseColumns(tasks, live[1..]);
      assert live == [live[0]] + live[1..];
    }
  }

  lemma ShowsAppend(a: seq<Column>, b: seq<Column>, to: string, isPhase: bool, t: Task)
    ensures Shows(a + b, to, isPhase, t) <==> Shows(a, to, isPhase, t) || Shows(b, to, isPhase, t)
  {
  }

  lemma ShowsSingle(c: Column, to: string, isPhase: bool, t: Task)
    ensures Shows([c], to, isPhase, t) <==> c.id == to && c.isPhase == isPhase && t in c.tasks
  {
    assert c in [c];
  }

  /** A task blocked on something waits, unless it is finished or dropped. */
  ghost predicate Blocked(t: Task) { exists why :: t.blockedReason == Some(why) && why != "" }

  /** The status column a task belongs in. */
  ghost predicate Belongs(t: Task, to: string) {
    || (to == "now" && t.status == Now && !Blocked(t))
    || (to == "later" && t.status == Later && !Blocked(t))
    || (to == "waiting" && (t.status == Now || t.status == Later) && Blocked(t))
    || (to == "done" && t.status == Done)
  }

  lemma ColumnOfExact(t: Task, to: string)
    ensures ColumnOf(t) == Some(to) <==> Belongs(t, to)
  {
    ColumnNamesDiffer();
    assert Blocked(t) <==> Truthy(t.blockedReason);
  }

  /** Without phases a column shows exactly the tasks that belong in it. */
  lemma StatusBoardShowsExact(tasks: seq<Task>, to: string, t: Task)
    requires t in tasks && Offered([], to, false)
    ensures Shows(BuildBoard(tasks, []), to, false, t) <==> Belongs(t, to)
  {
    ColumnOfExact(t, to);
    ColumnNamesDiffer();
    SortSelectMember(tasks, InStatus(to), t);
    var now, waiting := StatusColumn(tasks, "now"), StatusColumn(tasks, "waiting");
    var later, done := StatusColumn(tasks, "later"), StatusColumn(tasks, "done");
    assert BuildBoard(tasks, []) == [now] + [waiting] + [later] + [done];
    ShowsSingle(now, to, false, t);
    ShowsSingle(waiting, to, false, t);
    ShowsSingle(later, to, false, t);
    ShowsSingle(done, to, false, t);
    ShowsAppend([now], [waiting], to, false, t);
    ShowsAppend([now] + [waiting], [later], to, false, t);
    ShowsAppend([now] + [waiting] + [later], [done], to, false, t);
  }

  lemma UnphasedShowsExact(tasks: seq<Task>, live: seq<Phase>, to: string, isPhase: bool, t: Task)
    requires t in tasks
    ensures Shows(UnphasedColumn(tasks, live), to, isPhase, t) <==>
      to == "now" && !isPhase && Open(t) && Unphased(t, live)
  {
    SortSelectMember(tasks, InNoPhase(live), t);
    SortPermutes(Select(tasks, InNoPhase(live)));
    SameElements(Sort(Select(tasks, InNoPhase(live))), Select(tasks, InNoPhase(live)));
    if Select(tasks, InNoPhase(live)) != [] {
      ShowsSingle(Column("now", false, Sort(Select(tasks, InNoPhase(live)))), to, isPhase, t);
    }
  }

  lemma {:induction false} PhaseBoardShowsExact(
    tasks: seq<Task>, phases: seq<Phase>, to: string, isPhase: bool, t: Task)
    requires t in tasks && LivePhases(phases) != [] && Offered(phases, to, isPhase)
    ensures Shows(BuildBoard(tasks, phases), to, isPhase, t) <==>
      if isPhase then Open(t) && t.phaseId == Some(to)
      else if to == "now" then Open(t) && Unphased(t, LivePhases(phases))
      else t.status == Done
  {
    var live := LivePhases(phases);
    ColumnNamesDiffer();
    var byPhase, unphased := PhaseColumns(tasks, live), UnphasedColumn(tasks, live);
    var done := Column("done", false, Sort(Select(tasks, IsDone())));
    assert BuildBoard(tasks, phases) == byPhase + unphased + [done];
    PhaseColumnShows(tasks, live, to, t);
    UnphasedShowsExact(tasks, live, to, isPhase, t);
    SortSelectMember(tasks, IsDone(), t);
    ShowsSingle(done, to, isPhase, t);
    ShowsAppend(byPhase, unphased, to, isPhase, t);
    ShowsAppend(byPhase + unphased, [done], to, isPhase, t);
  }

  /** The status column of a card after a drop on a status column. */
  lemma DroppedBelongs(t: Task, to: string, orderKey: string, reason: string)
    requires Offered([], to, false) && reason != "" && t.status != Dropped
    ensures Belongs(Apply(t, UpdateForDrop(t, to, orderKey, false), reason), to) <==>
      (to == "waiting" ==> t.status != Done)
  {
    var moved := Apply(t, UpdateForDrop(t, to, orderKey, false), reason);
    ColumnNamesDiffer();
    assert Blocked(moved) <==> Truthy(moved.blockedReason);
  }

  /**
   * A drop the board offers, written and rebuilt, shows the card in the column it was dropped on
   * exactly when that column is not Waiting for a finished card, and not Unphased for a card some
   * live phase still claims (the write leaves its phase alone).
   */
  lemma DropShownExact(after: seq<Task>, phases: seq<Phase>, t: Task, to: string, isPhase: bool,
                       orderKey: string, reason: string)
    requires Offered(phases, to, isPhase) && reason != "" && t.status != Dropped
    requires Apply(t, UpdateForDrop(t, to, orderKey, isPhase), reason) in after
    ensures var live, moved := LivePhases(phases), Apply(t, UpdateForDrop(t, to, orderKey, isPhase), reason);
      Shows(BuildBoard(after, phases), to, isPhase, moved) <==>
        && (!isPhase && to == "waiting" ==> t.status != Done)
        && (!isPhase && to == "now" && live != [] ==> Unphased(t, live))
  {
    var live, moved := LivePhases(phases), Apply(t, UpdateForDrop(t, to, orderKey, isPhase), reason);
    ColumnNamesDiffer();
    if live == [] {
      if isPhase {
        assert false;
      }
      assert BuildBoard(after, phases) == BuildBoard(after, []);
      StatusBoardShowsExact(after, to, moved);
      DroppedBelongs(t, to, orderKey, reason);
    } else {
      PhaseBoardShowsExact(after, phases, to, isPhase, moved);
    }
  }
  /**
   * What is written by a drop and nothing else: the key asked for; on a phase, that phase, and a status
   * and no blocked reason that make the task active; on a status column, its status without a blocked
   * reason; on Waiting, a reason where there was none.
   */
  lemma DropWritesExactly(t: Task, to: string, isPhase: bool, orderKey: string, reason: string)
    requires reason != ""
    ensures var moved := Apply(t, UpdateForDrop(t, to, orderKey, isPhase), reason);
      var settled := isPhase || to == "now" || to == "later" || to == "done";
      && moved.id == t.id && moved.createdAt == t.createdAt && moved.orderKey == Some(orderKey)
      && moved.phaseId == (if isPhase then Some(to) else t.phaseId)
      && (settled ==> !Blocked(moved) && moved.blockedReason == None)
      && moved.status == (if !settled then t.status else if isPhase || to == "now" then Now
                          else if to == "later" then Later else Done)
      && (!settled && to == "waiting" ==> Blocked(moved) && (Blocked(t) ==> moved.blockedReason == t.blockedReason))
      && (!settled && to != "waiting" ==> moved == t.(orderKey := Some(orderKey)))
  {
    ColumnNamesDiffer();
    assert Blocked(t) <==> Truthy(t.blockedReason);
    var moved := Apply(t, UpdateForDrop(t, to, orderKey, isPhase), reason);
    assert Blocked(moved) <==> Truthy(moved.blockedReason);
  }
}
