/** What the Watcher guarantees over every run of events and sweeps. */
module WatcherSafety {
  import opened Order
  import opened LaneScope
  import opened Watcher

  datatype Step = Saw(event: Event) | Swept(now: Option<int>)

  function StepOf(s: State, step: Step): (State, seq<Proposal>) {
    match step
    case Saw(ev) => Decide(s, ev)
    case Swept(now) => Sweep(s, now)
  }

  /** A run: the final state and everything proposed on the way. */
  function Run(s: State, steps: seq<Step>): (State, seq<Proposal>) {
    if steps == [] then (s, [])
    else
      var (before, proposed) := Run(s, steps[..|steps| - 1]);
      var (after, more) := StepOf(before, steps[|steps| - 1]);
      (after, proposed + more)
  }

  // ---- the ledger is the list of proposals ----

  /** The proposals' keys are new, distinct, and exactly what the ledger gained. */
  predicate Accounts(before: set<string>, after: set<string>, proposals: seq<Proposal>) {
    && (forall i | 0 <= i < |proposals| :: Key(proposals[i].fact) in after && Key(proposals[i].fact) !in before)
    && (forall i, j | 0 <= i < j < |proposals| :: Key(proposals[i].fact) != Key(proposals[j].fact))
    && |after| == |before| + |proposals| && before <= after
  }

  lemma OnceAccounts(before: set<string>, o: Output, p: Proposal)
    requires Accounts(before, o.actioned, o.proposals)
    ensures Accounts(before, Once(o, p).actioned, Once(o, p).proposals)
  {
  }

  lemma {:induction false} OverlapsAccount(before: set<string>, o: Output, lane: WatchLane, others: seq<WatchLane>)
    requires Accounts(before, o.actioned, o.proposals)
    ensures var r := CheckOverlaps(o, lane, others); Accounts(before, r.actioned, r.proposals)
    decreases |others|
  {
    if others != [] {
      OnceAccounts(before, o, OverlapProposal(lane, others[0]));
      OverlapsAccount(before, OverlapAt(o, lane, others[0]), lane, others[1..]);
    }
  }

  lemma {:induction false} LanesAccount(before: set<string>, o: Output, lanes: seq<WatchLane>, now: int)
    requires Accounts(before, o.actioned, o.proposals)
    ensures var r := SweepLanes(o, lanes, now); Accounts(before, r.actioned, r.proposals)
    decreases |lanes|
  {
    if lanes != [] {
      OnceAccounts(before, o, StallProposal(lanes[0]));
      LanesAccount(before, StallAt(o, lanes[0], now), lanes[1..], now);
    }
  }

  lemma {:induction false} ApprovalsAccount(before: set<string>, o: Output, approvals: seq<WatchApproval>, now: int)
    requires Accounts(before, o.actioned, o.proposals)
    ensures var r := SweepApprovals(o, approvals, now); Accounts(before, r.actioned, r.proposals)
    decreases |approvals|
  {
    if approvals != [] {
      OnceAccounts(before, o, WaitProposal(approvals[0]));
      ApprovalsAccount(before,
        WaitAt(o, approvals[0], now), approvals[1..], now);
    }
  }

  lemma {:induction false} StepAccounts(s: State, step: Step)
    ensures var (next, proposals) := StepOf(s, step); Accounts(s.actioned, next.actioned, proposals)
  {
    match step
    case Saw(ev) => EventAccounts(s, ev);
    case Swept(now) => SweepAccounts(s, now);
  }

  lemma NothingAccounts(actioned: set<string>)
    ensures Accounts(actioned, actioned, [])
  {
  }

  lemma {:induction false} EventAccounts(s: State, ev: Event)
    ensures Accounts(s.actioned, Propose(s, ev).actioned, Propose(s, ev).proposals)
  {
    var o := Output(s.actioned, []);
    NothingAccounts(s.actioned);
    match ev.body
    case LaneMandate(_, _) => OverlapsAccount(s.actioned, o, LaneOf(ev), s.lanes);
    case LaneMergeReport(laneId, _) =>
      OnceAccounts(s.actioned, o, Proposal(ev.projectId, ev.conversationId, Exited(laneId)));
    case LaneAborted(laneId, _) =>
      OnceAccounts(s.actioned, o, Proposal(ev.projectId, ev.conversationId, Aborted(laneId)));
    case _ =>
  }

  lemma {:induction false} SweepAccounts(s: State, now: Option<int>)
    ensures var (next, proposals) := Sweep(s, now); Accounts(s.actioned, next.actioned, proposals)
  {
    var o := Output(s.actioned, []);
    if now.Some? {
      LanesAccount(s.actioned, o, s.lanes, now.value);
      ApprovalsAccount(s.actioned, SweepLanes(o, s.lanes, now.value), s.approvals, now.value);
    }
  }

  lemma AccountsCompose(a: set<string>, b: set<string>, c: set<string>, p: seq<Proposal>, q: seq<Proposal>)
    requires Accounts(a, b, p) && Accounts(b, c, q)
    ensures Accounts(a, c, p + q)
  {
    var r := p + q;
    assert forall i | 0 <= i < |r| :: r[i] == if i < |p| then p[i] else q[i - |p|];
  }

  /**
   * One proposal per fact, over every run: no two proposals share a ledger key, each key is in the
   * ledger, and there are exactly as many proposals as the ledger gained entries.
   */
  lemma {:induction false} OneProposalPerFact(s: State, steps: seq<Step>)
    ensures var (final, proposals) := Run(s, steps); Accounts(s.actioned, final.actioned, proposals)
  {
    if steps != [] {
      OneProposalPerFact(s, steps[..|steps| - 1]);
      var (before, proposed) := Run(s, steps[..|steps| - 1]);
      StepAccounts(before, steps[|steps| - 1]);
      var (after, more) := StepOf(before, steps[|steps| - 1]);
      AccountsCompose(s.actioned, before.actioned, after.actioned, proposed, more);
    }
  }

  // ---- different facts have different keys ----

  predicate Plain(s: string) { ':' !in s }

  lemma FirstColon(a: string, x: string)
    requires Plain(a)
    ensures var s := a + ":" + x; s[|a|] == ':' && forall i | 0 <= i < |a| :: s[i] != ':'
  {
  }

  lemma SplitAtColon(a: string, b: string, x: string, y: string)
    requires Plain(a) && Plain(b) && a + ":" + x == b + ":" + y
    ensures a == b && x == y
  {
    var s := a + ":" + x;
    FirstColon(a, x);
    FirstColon(b, y);
    assert |a| == |b|;
    assert a == s[..|a|] && b == s[..|b|] && x == s[|a| + 1..] && y == s[|b| + 1..];
  }

  /** The ids in a fact, none of which may contain the separator; a stall's timestamp may. */
  predicate PlainFact(f: Fact) {
    match f
    case Overlap(a, b) => Plain(a) && Plain(b)
    case Exited(l) => Plain(l)
    case Aborted(l) => Plain(l)
    case Stalled(l, _) => Plain(l)
    case Waiting(a) => Plain(a)
  }

  function Tag(f: Fact): string {
    match f
    case Overlap(_, _) => "overlap"
    case Exited(_) => "exit"
    case Aborted(_) => "abort"
    case Stalled(_, _) => "stall"
    case Waiting(_) => "approval"
  }

  function Rest(f: Fact): string {
    match f
    case Overlap(a, b) => a + ":" + b
    case Exited(l) => l
    case Aborted(l) => l
    case Stalled(l, since) => l + ":" + since
    case Waiting(a) => a
  }

  lemma KeyIsTagged(f: Fact)
    ensures Key(f) == Tag(f) + ":" + Rest(f) && Plain(Tag(f))
  {
    match f
    case Overlap(a, b) => assert "overlap:" + a + ":" + b == "overlap" + ":" + (a + ":" + b);
    case Exited(l) => assert "exit:" + l == "exit" + ":" + l;
    case Aborted(l) => assert "abort:" + l == "abort" + ":" + l;
    case Stalled(l, since) => assert "stall:" + l + ":" + since == "stall" + ":" + (l + ":" + since);
    case Waiting(a) => assert "approval:" + a == "approval" + ":" + a;
  }

  lemma TagsDiffer()
    ensures "overlap"[0] == 'o' && "exit"[0] == 'e' && "abort"[0] == 'a' && "stall"[0] == 's' && "approval"[0] == 'a'
    ensures "abort"[1] == 'b' && "approval"[1] == 'p'
  {
  }

  /** Whatever the ids, a key tells the kind of its fact and all that the fact names. */
  lemma KeysTellKinds(f: Fact, g: Fact)
    requires Key(f) == Key(g)
    ensures Tag(f) == Tag(g) && Rest(f) == Rest(g)
    ensures f.Overlap? == g.Overlap? && f.Exited? == g.Exited? && f.Aborted? == g.Aborted?
    ensures f.Stalled? == g.Stalled? && f.Waiting? == g.Waiting?
  {
    KeyIsTagged(f);
    KeyIsTagged(g);
    SplitAtColon(Tag(f), Tag(g), Rest(f), Rest(g));
    TagsDiffer();
  }

  /** Over ids without a colon, the ledger never confuses two facts. */
  lemma KeysIdentifyFacts(f: Fact, g: Fact)
    requires PlainFact(f) && PlainFact(g) && Key(f) == Key(g)
    ensures f == g
  {
    KeysTellKinds(f, g);
    if f.Overlap? && g.Overlap? {
      SplitAtColon(f.first, g.first, f.second, g.second);
    } else if f.Stalled? && g.Stalled? {
      SplitAtColon(f.laneId, g.laneId, f.since, g.since);
    }
  }

  // ---- what each rule puts into the ledger ----

  predicate NotesOverlap(lane: WatchLane, other: WatchLane, k: string) {
    Clashes(lane, other) && Key(SortedPair(lane.laneId, other.laneId)) == k
  }

  predicate NotesStall(lane: WatchLane, now: int, k: string) {
    Due(lane.lastActivity, now, WATCH_STALL_MS) && Key(StallProposal(lane).fact) == k
  }

  predicate NotesWait(approval: WatchApproval, now: int, k: string) {
    Due(approval.requested, now, WATCH_APPROVAL_MS) && Key(WaitProposal(approval).fact) == k
  }

  lemma {:induction false} OverlapsNoted(o: Output, lane: WatchLane, others: seq<WatchLane>, k: string)
    ensures k in CheckOverlaps(o, lane, others).actioned <==>
      k in o.actioned || exists i :: 0 <= i < |others| && NotesOverlap(lane, others[i], k)
    decreases |others|
  {
    if others != [] {
      var next := OverlapAt(o, lane, others[0]);
      OverlapsNoted(next, lane, others[1..], k);
      if i :| 0 <= i < |others| && NotesOverlap(lane, others[i], k) {
        assert i > 0 ==> others[1..][i - 1] == others[i];
      }
      if i :| 0 <= i < |others[1..]| && NotesOverlap(lane, others[1..][i], k) {
        assert others[i + 1] == others[1..][i];
      }
    }
  }

  lemma {:induction false} StallsNoted(o: Output, lanes: seq<WatchLane>, now: int, k: string)
    ensures k in SweepLanes(o, lanes, now).actioned <==>
      k in o.actioned || exists i :: 0 <= i < |lanes| && NotesStall(lanes[i], now, k)
    decreases |lanes|
  {
    if lanes != [] {
      var next := StallAt(o, lanes[0], now);
      StallsNoted(next, lanes[1..], now, k);
      if i :| 0 <= i < |lanes| && NotesStall(lanes[i], now, k) {
        assert i > 0 ==> lanes[1..][i - 1] == lanes[i];
      }
      if i :| 0 <= i < |lanes[1..]| && NotesStall(lanes[1..][i], now, k) {
        assert lanes[i + 1] == lanes[1..][i];
      }
    }
  }

  lemma {:induction false} WaitsNoted(o: Output, approvals: seq<WatchApproval>, now: int, k: string)
    ensures k in SweepApprovals(o, approvals, now).actioned <==>
      k in o.actioned || exists i :: 0 <= i < |approvals| && NotesWait(approvals[i], now, k)
    decreases |approvals|
  {
    if approvals != [] {
      var next := WaitAt(o, approvals[0], now);
      WaitsNoted(next, approvals[1..], now, k);
      if i :| 0 <= i < |approvals| && NotesWait(approvals[i], now, k) {
        assert i > 0 ==> approvals[1..][i - 1] == approvals[i];
      }
      if i :| 0 <= i < |approvals[1..]| && NotesWait(approvals[1..][i], now, k) {
        assert approvals[i + 1] == approvals[1..][i];
      }
    }
  }

  // ---- overlapping active lanes are always on record ----

  /** Every two active lanes of one project that share a path have their pair in the ledger. */
  predicate OverlapsOnRecord(s: State) {
    forall a, b | a in s.lanes && b in s.lanes && Clashes(a, b) :: Key(SortedPair(a.laneId, b.laneId)) in s.actioned
  }

  lemma ClashesSymmetric(a: WatchLane, b: WatchLane)
    ensures Clashes(a, b) <==> Clashes(b, a)
    ensures SortedPair(a.laneId, b.laneId) == SortedPair(b.laneId, a.laneId)
  {
    OverlapSymmetric(a.scopePaths, b.scopePaths);
    LessTotal(a.laneId, b.laneId);
    if Less(a.laneId, b.laneId) {
      LessAsymmetric(a.laneId, b.laneId);
    }
  }

  lemma MandateKeepsRecord(s: State, ev: Event)
    requires ev.body.LaneMandate? && OverlapsOnRecord(s)
    ensures OverlapsOnRecord(Decide(s, ev).0)
  {
    var lane, next := LaneOf(ev), Decide(s, ev).0;
    assert forall l | l in next.lanes :: l == lane || l in s.lanes;
    forall a, b | a in next.lanes && b in next.lanes && Clashes(a, b)
      ensures Key(SortedPair(a.laneId, b.laneId)) in next.actioned
    {
      var k := Key(SortedPair(a.laneId, b.laneId));
      OverlapsNoted(Output(s.actioned, []), lane, s.lanes, k);
      ClashesSymmetric(a, b);
      if a == lane {
        var i :| 0 <= i < |s.lanes| && s.lanes[i] == b;
      } else if b == lane {
        var i :| 0 <= i < |s.lanes| && s.lanes[i] == a;
      }
    }
  }

  lemma TouchMember(lanes: seq<WatchLane>, laneId: string, ts: Stamp, l: WatchLane)
    requires l in Touch(lanes, laneId, ts)
    ensures exists m | m in lanes :: m.(lastActivity := l.lastActivity) == l
  {
    var i := IndexOf(lanes, laneId);
    var k :| 0 <= k < |Touch(lanes, laneId, ts)| && Touch(lanes, laneId, ts)[k] == l;
    assert lanes[k] in lanes && lanes[k].(lastActivity := l.lastActivity) == l;
  }

  /** Steps that only move, touch or remove lanes leave no new pair. */
  lemma SubsetKeepsRecord(s: State, next: State)
    requires OverlapsOnRecord(s) && s.actioned <= next.actioned
    requires forall l | l in next.lanes :: exists m | m in s.lanes :: m.(lastActivity := l.lastActivity) == l
    ensures OverlapsOnRecord(next)
  {
    forall a, b | a in next.lanes && b in next.lanes && Clashes(a, b)
      ensures Key(SortedPair(a.laneId, b.laneId)) in next.actioned
    {
      var m :| m in s.lanes && m.(lastActivity := a.lastActivity) == a;
      var n :| n in s.lanes && n.(lastActivity := b.lastActivity) == b;
      assert Clashes(m, n);
    }
  }

  lemma StepKeepsRecord(s: State, step: Step)
    requires OverlapsOnRecord(s)
    ensures OverlapsOnRecord(StepOf(s, step).0)
  {
    StepAccounts(s, step);
    var next := StepOf(s, step).0;
    if step.Saw? && step.event.body.LaneMandate? {
      MandateKeepsRecord(s, step.event);
    } else {
      forall l | l in next.lanes ensures exists m | m in s.lanes :: m.(lastActivity := l.lastActivity) == l {
        if l in s.lanes {
          assert l.(lastActivity := l.lastActivity) == l;
        } else if step.event.body.LaneProgress? {
          TouchMember(s.lanes, step.event.body.progressLane.value, step.event.ts, l);
        } else {
          TouchMember(s.lanes, step.event.body.reportLane, step.event.ts, l);
        }
      }
      SubsetKeepsRecord(s, next);
    }
  }

  /** Over every run from the start, no two overlapping active lanes of a project go unrecorded. */
  lemma {:induction false} OverlapsAlwaysOnRecord(steps: seq<Step>)
    ensures OverlapsOnRecord(Run(Empty(), steps).0)
  {
    if steps != [] {
      OverlapsAlwaysOnRecord(steps[..|steps| - 1]);
      StepKeepsRecord(Run(Empty(), steps[..|steps| - 1]).0, steps[|steps| - 1]);
    }
  }

  // ---- repetition is silent ----

  lemma {:induction false} NothingNewToOverlap(o: Output, lane: WatchLane, others: seq<WatchLane>)
    requires forall i | 0 <= i < |others| && Clashes(lane, others[i]) ::
      Key(SortedPair(lane.laneId, others[i].laneId)) in o.actioned
    ensures CheckOverlaps(o, lane, others) == o
    decreases |others|
  {
    if others != [] {
      assert forall i | 0 <= i < |others[1..]| :: others[1..][i] == others[i + 1];
      NothingNewToOverlap(o, lane, others[1..]);
    }
  }

  lemma {:induction false} DropTwice(lanes: seq<WatchLane>, laneId: string)
    requires forall l | l in lanes :: l.laneId != laneId
    ensures DropLane(lanes, laneId) == lanes
  {
    if lanes != [] {
      DropTwice(lanes[1..], laneId);
    }
  }

  lemma {:induction false} DropApprovalTwice(approvals: seq<WatchApproval>, id: string)
    requires forall a | a in approvals :: a.approvalId != id
    ensures DropApproval(approvals, id) == approvals
  {
    if approvals != [] {
      DropApprovalTwice(approvals[1..], id);
    }
  }

  lemma IndexIsFirst(lanes: seq<WatchLane>, laneId: string, i: nat)
    requires i < |lanes| && lanes[i].laneId == laneId && forall k | 0 <= k < i :: lanes[k].laneId != laneId
    ensures IndexOf(lanes, laneId) == i
  {
  }

  lemma ApprovalIndexIsFirst(approvals: seq<WatchApproval>, id: string, i: nat)
    requires i < |approvals| && approvals[i].approvalId == id && forall k | 0 <= k < i :: approvals[k].approvalId != id
    ensures ApprovalIndex(approvals, id) == i
  {
  }

  lemma TrackTwice(s: State, ev: Event)
    ensures Track(Track(s, ev), ev) == Track(s, ev)
  {
    var once := Track(s, ev);
    match ev.body
    case LaneMandate(laneId, _) => IndexIsFirst(once.lanes, laneId, IndexOf(s.lanes, laneId));
    case LaneProgress(laneId) =>
      if Truthy(laneId) && IndexOf(s.lanes, laneId.value) < |s.lanes| {
        IndexIsFirst(once.lanes, laneId.value, IndexOf(s.lanes, laneId.value));
      }
    case LaneMergeReport(laneId, _) =>
      if IndexOf(s.lanes, laneId) < |s.lanes| {
        IndexIsFirst(once.lanes, laneId, IndexOf(s.lanes, laneId));
      }
    case LaneCompleted(laneId) => DropTwice(once.lanes, laneId);
    case LaneAborted(laneId, _) => DropTwice(once.lanes, laneId);
    case ApprovalRequested(id) => ApprovalIndexIsFirst(once.approvals, id, ApprovalIndex(s.approvals, id));
    case ApprovalResolved(id) => DropApprovalTwice(once.approvals, id);
    case OtherBody =>
  }

  /** A duplicate delivery folds to nothing: same state, no proposal. */
  lemma RepeatedEventIsSilent(s: State, ev: Event)
    ensures var once := Decide(s, ev).0; Decide(once, ev) == (once, [])
  {
    var once := Decide(s, ev).0;
    TrackTwice(s, ev);
    assert Track(once, ev) == Track(Track(s, ev), ev).(actioned := once.actioned);
    if ev.body.LaneMandate? {
      var lane := LaneOf(ev);
      forall i | 0 <= i < |once.lanes| && Clashes(lane, once.lanes[i])
        ensures Key(SortedPair(lane.laneId, once.lanes[i].laneId)) in once.actioned
      {
        assert i < |s.lanes| && once.lanes[i] == s.lanes[i];
        OverlapsNoted(Output(s.actioned, []), lane, s.lanes, Key(SortedPair(lane.laneId, s.lanes[i].laneId)));
      }
      NothingNewToOverlap(Output(once.actioned, []), lane, once.lanes);
    }
  }

  lemma {:induction false} NothingNewToStall(o: Output, lanes: seq<WatchLane>, now: int)
    requires forall i | 0 <= i < |lanes| && Due(lanes[i].lastActivity, now, WATCH_STALL_MS) ::
      Key(StallProposal(lanes[i]).fact) in o.actioned
    ensures SweepLanes(o, lanes, now) == o
    decreases |lanes|
  {
    if lanes != [] {
      assert forall i | 0 <= i < |lanes[1..]| :: lanes[1..][i] == lanes[i + 1];
      NothingNewToStall(o, lanes[1..], now);
    }
  }

  lemma {:induction false} NothingNewToWait(o: Output, approvals: seq<WatchApproval>, now: int)
    requires forall i | 0 <= i < |approvals| && Due(approvals[i].requested, now, WATCH_APPROVAL_MS) ::
      Key(WaitProposal(approvals[i]).fact) in o.actioned
    ensures SweepApprovals(o, approvals, now) == o
    decreases |approvals|
  {
    if approvals != [] {
      assert forall i | 0 <= i < |approvals[1..]| :: approvals[1..][i] == approvals[i + 1];
      NothingNewToWait(o, approvals[1..], now);
    }
  }

  lemma {:induction false} SweepApprovalsGrows(o: Output, approvals: seq<WatchApproval>, now: int)
    ensures o.actioned <= SweepApprovals(o, approvals, now).actioned
    decreases |approvals|
  {
    if approvals != [] {
      SweepApprovalsGrows(WaitAt(o, approvals[0], now), approvals[1..], now);
    }
  }

  /** A second sweep says nothing, at the same moment or an earlier one. */
  lemma RepeatedSweepIsSilent(s: State, now: int, again: int)
    requires again <= now
    ensures var once := Sweep(s, Some(now)).0; Sweep(once, Some(again)) == (once, [])
  {
    var once, o := Sweep(s, Some(now)).0, SweepLanes(Output(s.actioned, []), s.lanes, now);
    SweepApprovalsGrows(o, s.approvals, now);
    forall i | 0 <= i < |s.lanes| && Due(s.lanes[i].lastActivity, again, WATCH_STALL_MS)
      ensures Key(StallProposal(s.lanes[i]).fact) in once.actioned
    {
      StallsNoted(Output(s.actioned, []), s.lanes, now, Key(StallProposal(s.lanes[i]).fact));
    }
    forall i | 0 <= i < |s.approvals| && Due(s.approvals[i].requested, again, WATCH_APPROVAL_MS)
      ensures Key(WaitProposal(s.approvals[i]).fact) in once.actioned
    {
      WaitsNoted(o, s.approvals, now, Key(WaitProposal(s.approvals[i]).fact));
    }
    NothingNewToStall(Output(once.actioned, []), s.lanes, again);
    NothingNewToWait(Output(once.actioned, []), s.approvals, again);
  }

  // ---- a lane that ended is left alone ----

  predicate NoStallOf(proposals: seq<Proposal>, laneId: string) {
    forall i | 0 <= i < |proposals| :: !(proposals[i].fact.Stalled? && proposals[i].fact.laneId == laneId)
  }

  predicate Unwatched(s: State, laneId: string) { forall l | l in s.lanes :: l.laneId != laneId }

  lemma {:induction false} SweepLanesSpares(o: Output, lanes: seq<WatchLane>, now: int, laneId: string)
    requires NoStallOf(o.proposals, laneId) && forall l | l in lanes :: l.laneId != laneId
    ensures NoStallOf(SweepLanes(o, lanes, now).proposals, laneId)
    decreases |lanes|
  {
    if lanes != [] {
      SweepLanesSpares(StallAt(o, lanes[0], now), lanes[1..], now, laneId);
    }
  }

  lemma {:induction false} SweepApprovalsSpares(o: Output, approvals: seq<WatchApproval>, now: int, laneId: string)
    requires NoStallOf(o.proposals, laneId)
    ensures NoStallOf(SweepApprovals(o, approvals, now).proposals, laneId)
    decreases |approvals|
  {
    if approvals != [] {
      SweepApprovalsSpares(WaitAt(o, approvals[0], now), approvals[1..], now, laneId);
    }
  }

  lemma {:induction false} OverlapsSpare(o: Output, lane: WatchLane, others: seq<WatchLane>, laneId: string)
    requires NoStallOf(o.proposals, laneId)
    ensures NoStallOf(CheckOverlaps(o, lane, others).proposals, laneId)
    decreases |others|
  {
    if others != [] {
      OverlapsSpare(OverlapAt(o, lane, others[0]), lane, others[1..], laneId);
    }
  }

  lemma EndedLaneStaysUnwatched(s: State, ev: Event, laneId: string)
    ensures ev.body == LaneCompleted(laneId) || (ev.body.LaneAborted? && ev.body.abortedLane == laneId)
      ==> Unwatched(Decide(s, ev).0, laneId)
  {
  }

  lemma UnwatchedStep(s: State, step: Step, laneId: string)
    requires Unwatched(s, laneId)
    requires step.Saw? && step.event.body.LaneMandate? ==> step.event.body.laneId != laneId
    ensures Unwatched(StepOf(s, step).0, laneId) && NoStallOf(StepOf(s, step).1, laneId)
  {
    var o := Output(s.actioned, []);
    match step
    case Saw(ev) =>
      if ev.body.LaneMandate? {
        OverlapsSpare(o, LaneOf(ev), s.lanes, laneId);
      }
      forall l | l in Decide(s, ev).0.lanes ensures l.laneId != laneId {
        if ev.body.LaneProgress? && Truthy(ev.body.progressLane) {
          TouchMember(s.lanes, ev.body.progressLane.value, ev.ts, l);
        } else if ev.body.LaneMergeReport? {
          TouchMember(s.lanes, ev.body.reportLane, ev.ts, l);
        }
      }
    case Swept(now) =>
      if now.Some? {
        SweepLanesSpares(o, s.lanes, now.value, laneId);
        SweepApprovalsSpares(SweepLanes(o, s.lanes, now.value), s.approvals, now.value, laneId);
      }
  }

  /** Once a lane has ended, no run without a new mandate for it ever calls it stalled. */
  lemma {:induction false} EndedLaneNeverStalls(s: State, steps: seq<Step>, laneId: string)
    requires Unwatched(s, laneId)
    requires forall i | 0 <= i < |steps| && steps[i].Saw? && steps[i].event.body.LaneMandate? ::
      steps[i].event.body.laneId != laneId
    ensures Unwatched(Run(s, steps).0, laneId) && NoStallOf(Run(s, steps).1, laneId)
  {
    if steps != [] {
      EndedLaneNeverStalls(s, steps[..|steps| - 1], laneId);
      UnwatchedStep(Run(s, steps[..|steps| - 1]).0, steps[|steps| - 1], laneId);
    }
  }
}
