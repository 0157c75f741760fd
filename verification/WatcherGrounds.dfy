/** What the Watcher proposes, told from the steps of the run alone. */
module WatcherGrounds {
  import opened Order
  import opened LaneScope
  import opened Watcher
  import opened WatcherSafety

  // ---- what is being watched ----

  predicate Mandates(step: Step, l: string) {
    step.Saw? && step.event.body.LaneMandate? && step.event.body.laneId == l
  }

  /** A lane ends when it completes, and when it is aborted for whatever reason. */
  predicate Ends(step: Step, l: string) {
    step.Saw? && (step.event.body == LaneCompleted(l)
                  || (step.event.body.LaneAborted? && step.event.body.abortedLane == l))
  }

  /** What counts as activity: a mandate, progress that names the lane, a report of whatever exit. */
  predicate Stirs(step: Step, l: string) {
    || Mandates(step, l)
    || (step.Saw? && step.event.body == LaneProgress(Some(l)) && l != "")
    || (step.Saw? && step.event.body.LaneMergeReport? && step.event.body.reportLane == l)
  }

  /** Step `m` is the lane's last mandate, nothing has ended it since, and step `t` is its last activity. */
  predicate ActiveBy(steps: seq<Step>, l: string, m: nat, t: nat) {
    && m <= t < |steps| && Mandates(steps[m], l) && Stirs(steps[t], l)
    && (forall k | m < k < |steps| :: !Mandates(steps[k], l) && !Ends(steps[k], l))
    && (forall k | t < k < |steps| :: !Stirs(steps[k], l))
  }

  predicate WatchedBy(steps: seq<Step>, w: WatchLane, m: nat, t: nat) {
    && ActiveBy(steps, w.laneId, m, t)
    && w.projectId == steps[m].event.projectId && w.conversationId == steps[m].event.conversationId
    && w.scopePaths == steps[m].event.body.scopePaths && w.lastActivity == steps[t].event.ts
  }

  ghost predicate Watched(steps: seq<Step>, w: WatchLane) { exists m: nat, t: nat :: WatchedBy(steps, w, m, t) }

  predicate Requests(step: Step, a: string) { step.Saw? && step.event.body == ApprovalRequested(a) }

  predicate Resolves(step: Step, a: string) { step.Saw? && step.event.body == ApprovalResolved(a) }

  /** Step `m` is the approval's last request, and it has not been resolved since. */
  predicate PendingBy(steps: seq<Step>, a: WatchApproval, m: nat) {
    && m < |steps| && Requests(steps[m], a.approvalId)
    && (forall k | m < k < |steps| :: !Requests(steps[k], a.approvalId) && !Resolves(steps[k], a.approvalId))
    && a.projectId == steps[m].event.projectId && a.conversationId == steps[m].event.conversationId
    && a.requested == steps[m].event.ts
  }

  ghost predicate Pending(steps: seq<Step>, a: WatchApproval) { exists m: nat :: PendingBy(steps, a, m) }

  predicate UniqueLanes(lanes: seq<WatchLane>) {
    forall i, j | 0 <= i < j < |lanes| :: lanes[i].laneId != lanes[j].laneId
  }

  predicate UniqueApprovals(approvals: seq<WatchApproval>) {
    forall i, j | 0 <= i < j < |approvals| :: approvals[i].approvalId != approvals[j].approvalId
  }

  /** The lanes and approvals of the state are the ones the steps leave watched and pending. */
  ghost predicate Tracks(steps: seq<Step>, s: State) {
    && UniqueLanes(s.lanes) && UniqueApprovals(s.approvals)
    && (forall w :: w in s.lanes <==> Watched(steps, w))
    && (forall a :: a in s.approvals <==> Pending(steps, a))
  }

  lemma WatchedAfterMandate(steps: seq<Step>, step: Step, w: WatchLane)
    requires Mandates(step, w.laneId)
    ensures Watched(steps + [step], w) <==> w == LaneOf(step.event)
  {
    var all, n := steps + [step], |steps|;
    assert all[n] == step;
    if w == LaneOf(step.event) {
      assert WatchedBy(all, w, n, n);
    }
  }

  lemma WatchedAfterEnd(steps: seq<Step>, step: Step, w: WatchLane)
    requires Ends(step, w.laneId)
    ensures !Watched(steps + [step], w)
  {
    assert (steps + [step])[|steps|] == step;
  }

  lemma WatchedAfterStir(steps: seq<Step>, step: Step, w: WatchLane)
    requires Stirs(step, w.laneId) && !Mandates(step, w.laneId)
    ensures Watched(steps + [step], w) <==>
      w.lastActivity == step.event.ts && exists ts :: Watched(steps, w.(lastActivity := ts))
  {
    var all, n := steps + [step], |steps|;
    assert all[n] == step && !Ends(step, w.laneId);
    assert forall k {:trigger steps[k]} | 0 <= k < n :: steps[k] == all[k];
    if m: nat, t: nat :| WatchedBy(all, w, m, t) {
      assert t == n;
      var last := LastStir(steps, w.laneId, m);
      assert WatchedBy(steps, w.(lastActivity := steps[last].event.ts), m, last);
    }
    if ts :| w.lastActivity == step.event.ts && Watched(steps, w.(lastActivity := ts)) {
      var m: nat, t: nat :| WatchedBy(steps, w.(lastActivity := ts), m, t);
      assert WatchedBy(all, w, m, n);
    }
  }

  /** The last activity at or after a mandate. */
  function LastStir(steps: seq<Step>, l: string, m: nat): (t: nat)
    requires m < |steps| && Mandates(steps[m], l)
    ensures m <= t < |steps| && Stirs(steps[t], l) && forall k | t < k < |steps| :: !Stirs(steps[k], l)
  {
    if Stirs(steps[|steps| - 1], l) then |steps| - 1 else LastStir(steps[..|steps| - 1], l, m)
  }

  lemma WatchedAfterOther(steps: seq<Step>, step: Step, w: WatchLane)
    requires !Stirs(step, w.laneId) && !Ends(step, w.laneId)
    ensures Watched(steps + [step], w) <==> Watched(steps, w)
  {
    var all, n := steps + [step], |steps|;
    assert all[n] == step;
    assert forall k {:trigger steps[k]} | 0 <= k < n :: steps[k] == all[k];
    if m: nat, t: nat :| WatchedBy(all, w, m, t) {
      assert WatchedBy(steps, w, m, t);
    }
    if m: nat, t: nat :| WatchedBy(steps, w, m, t) {
      assert WatchedBy(all, w, m, t);
    }
  }

  lemma PendingAfter(steps: seq<Step>, step: Step, a: WatchApproval)
    ensures Requests(step, a.approvalId) ==> (Pending(steps + [step], a) <==>
      a == WatchApproval(a.approvalId, step.event.projectId, step.event.conversationId, step.event.ts))
    ensures Resolves(step, a.approvalId) ==> !Pending(steps + [step], a)
    ensures !Requests(step, a.approvalId) && !Resolves(step, a.approvalId) ==>
      (Pending(steps + [step], a) <==> Pending(steps, a))
  {
    var all, n := steps + [step], |steps|;
    assert all[n] == step;
    assert forall k {:trigger steps[k]} | 0 <= k < n :: steps[k] == all[k];
    if m: nat :| PendingBy(all, a, m) {
      assert m < n ==> PendingBy(steps, a, m);
    }
    if Requests(step, a.approvalId) {
      if a == WatchApproval(a.approvalId, step.event.projectId, step.event.conversationId, step.event.ts) {
        assert PendingBy(all, a, n);
      }
    } else if !Resolves(step, a.approvalId) {
      if m: nat :| PendingBy(steps, a, m) {
        assert PendingBy(all, a, m);
      }
    }
  }

  // ---- the state keeps track ----

  lemma PutLaneMembers(lanes: seq<WatchLane>, lane: WatchLane, w: WatchLane)
    requires UniqueLanes(lanes)
    ensures UniqueLanes(PutLane(lanes, lane))
    ensures w in PutLane(lanes, lane) <==> if w.laneId == lane.laneId then w == lane else w in lanes
  {
    var r, i := PutLane(lanes, lane), IndexOf(lanes, lane.laneId);
    assert r[i] == lane;
    if w in lanes {
      var k :| 0 <= k < |lanes| && lanes[k] == w;
      assert k != i ==> r[k] == w;
    }
  }

  lemma TouchMembers(lanes: seq<WatchLane>, l: string, ts: Stamp, w: WatchLane)
    requires UniqueLanes(lanes)
    ensures UniqueLanes(Touch(lanes, l, ts))
    ensures w in Touch(lanes, l, ts) <==>
      if w.laneId == l then w.lastActivity == ts && exists u :: w.(lastActivity := u) in lanes else w in lanes
  {
    var r, i := Touch(lanes, l, ts), IndexOf(lanes, l);
    if w in r {
      var k :| 0 <= k < |r| && r[k] == w;
      assert w.(lastActivity := lanes[k].lastActivity) == lanes[k];
    }
    if w.laneId == l && w.lastActivity == ts {
      if u :| w.(lastActivity := u) in lanes {
        assert r[i] == w;
      }
    } else if w in lanes {
      var k :| 0 <= k < |lanes| && lanes[k] == w;
      assert w.laneId != l ==> r[k] == w;
    }
  }

  lemma {:induction false} DropLaneUnique(lanes: seq<WatchLane>, l: string)
    requires UniqueLanes(lanes)
    ensures UniqueLanes(DropLane(lanes, l))
  {
    if lanes != [] {
      DropLaneUnique(lanes[1..], l);
      assert forall w | w in lanes[1..] :: w.laneId != lanes[0].laneId;
    }
  }

  lemma {:induction false} DropApprovalUnique(approvals: seq<WatchApproval>, id: string)
    requires UniqueApprovals(approvals)
    ensures UniqueApprovals(DropApproval(approvals, id))
  {
    if approvals != [] {
      DropApprovalUnique(approvals[1..], id);
      assert forall a | a in approvals[1..] :: a.approvalId != approvals[0].approvalId;
    }
  }

  lemma PutApprovalMembers(approvals: seq<WatchApproval>, b: WatchApproval, a: WatchApproval)
    requires UniqueApprovals(approvals)
    ensures UniqueApprovals(PutApproval(approvals, b))
    ensures a in PutApproval(approvals, b) <==> if a.approvalId == b.approvalId then a == b else a in approvals
  {
    var r, i := PutApproval(approvals, b), ApprovalIndex(approvals, b.approvalId);
    assert r[i] == b;
    if a in approvals {
      var k :| 0 <= k < |approvals| && approvals[k] == a;
      assert k != i ==> r[k] == a;
    }
  }

  lemma StepTracksLane(steps: seq<Step>, s: State, step: Step, w: WatchLane)
    requires Tracks(steps, s)
    ensures UniqueLanes(StepOf(s, step).0.lanes)
    ensures w in StepOf(s, step).0.lanes <==> Watched(steps + [step], w)
  {
    if Mandates(step, w.laneId) {
      WatchedAfterMandate(steps, step, w);
    } else if Ends(step, w.laneId) {
      WatchedAfterEnd(steps, step, w);
    } else if Stirs(step, w.laneId) {
      WatchedAfterStir(steps, step, w);
      if ts :| Watched(steps, w.(lastActivity := ts)) {
        assert w.(lastActivity := ts) in s.lanes;
      }
    } else {
      WatchedAfterOther(steps, step, w);
    }
    if step.Saw? {
      match step.event.body
      case LaneMandate(_, _) => PutLaneMembers(s.lanes, LaneOf(step.event), w);
      case LaneProgress(id) =>
        if Truthy(id) {
          TouchMembers(s.lanes, id.value, step.event.ts, w);
        }
      case LaneMergeReport(id, _) => TouchMembers(s.lanes, id, step.event.ts, w);
      case LaneCompleted(id) => DropLaneUnique(s.lanes, id);
      case LaneAborted(id, _) => DropLaneUnique(s.lanes, id);
      case _ =>
    }
  }

  lemma StepTracksApproval(steps: seq<Step>, s: State, step: Step, a: WatchApproval)
    requires Tracks(steps, s)
    ensures UniqueApprovals(StepOf(s, step).0.approvals)
    ensures a in StepOf(s, step).0.approvals <==> Pending(steps + [step], a)
  {
    PendingAfter(steps, step, a);
    if step.Saw? {
      var ev := step.event;
      match ev.body
      case ApprovalRequested(id) =>
        PutApprovalMembers(s.approvals, WatchApproval(id, ev.projectId, ev.conversationId, ev.ts), a);
      case ApprovalResolved(id) => DropApprovalUnique(s.approvals, id);
      case _ =>
    }
  }

  /**
   * Over every run from the start, the lanes watched are those whose last mandate nothing has ended
   * since, last active at their last mandate, progress or report; the approvals are those pending.
   */
  lemma {:induction false} WatchIsExact(steps: seq<Step>)
    ensures Tracks(steps, Run(Empty(), steps).0)
  {
    var s := Run(Empty(), steps).0;
    if steps != [] {
      var before, step := steps[..|steps| - 1], steps[|steps| - 1];
      WatchIsExact(before);
      assert steps == before + [step];
      forall w ensures UniqueLanes(s.lanes) && (w in s.lanes <==> Watched(steps, w)) {
        StepTracksLane(before, Run(Empty(), before).0, step, w);
      }
      forall a ensures UniqueApprovals(s.approvals) && (a in s.approvals <==> Pending(steps, a)) {
        StepTracksApproval(before, Run(Empty(), before).0, step, a);
      }
    }
  }

  // ---- grounds ----

  /** A lane ran out of budget or stopped early. */
  predicate ReportsEarlyEnd(step: Step, p: Proposal) {
    && step.Saw? && step.event.body.LaneMergeReport? && step.event.body.exit in {BudgetExit, PartialExit}
    && p == Proposal(step.event.projectId, step.event.conversationId, Exited(step.event.body.reportLane))
  }

  /** A lane was aborted, and not because the operator chose to. */
  predicate ReportsFailure(step: Step, p: Proposal) {
    && step.Saw? && step.event.body.LaneAborted? && !step.event.body.operatorChoice
    && p == Proposal(step.event.projectId, step.event.conversationId, Aborted(step.event.body.abortedLane))
  }

  /** A mandate meets a lane of its project, active until then, that shares a path with it. */
  predicate MeetsLane(step: Step, other: WatchLane, p: Proposal) {
    && step.Saw? && step.event.body.LaneMandate?
    && other.projectId == step.event.projectId && other.laneId != step.event.body.laneId
    && ScopesOverlap(step.event.body.scopePaths, other.scopePaths)
    && p.projectId == step.event.projectId && p.conversationId == step.event.conversationId
    && p.fact.Overlap? && Less(p.fact.first, p.fact.second)
    && {p.fact.first, p.fact.second} == {step.event.body.laneId, other.laneId}
  }

  /** A sweep finds a watched lane idle for ten minutes or more. */
  predicate FindsIdle(step: Step, w: WatchLane, p: Proposal) {
    && step.Swept? && step.now.Some? && w.lastActivity.ms.Some?
    && step.now.value - w.lastActivity.ms.value >= 600_000
    && p == Proposal(w.projectId, w.conversationId, Stalled(w.laneId, w.lastActivity.text))
  }

  /** A sweep finds an approval pending for three minutes or more. */
  predicate FindsWaiting(step: Step, a: WatchApproval, p: Proposal) {
    && step.Swept? && step.now.Some? && a.requested.ms.Some?
    && step.now.value - a.requested.ms.value >= 180_000
    && p == Proposal(a.projectId, a.conversationId, Waiting(a.approvalId))
  }

  /** What step `step`, coming after `steps`, gives grounds to propose. */
  ghost predicate Grounds(steps: seq<Step>, step: Step, p: Proposal) {
    || ReportsEarlyEnd(step, p)
    || ReportsFailure(step, p)
    || (exists w :: Watched(steps, w) && MeetsLane(step, w, p))
    || (exists w :: Watched(steps, w) && FindsIdle(step, w, p))
    || (exists a :: Pending(steps, a) && FindsWaiting(step, a, p))
  }

  ghost predicate Grounded(steps: seq<Step>, p: Proposal) {
    exists j :: 0 <= j < |steps| && Grounds(steps[..j], steps[j], p)
  }

  /** Some step of the run gives grounds for a proposal with this ledger key. */
  ghost predicate KeyGrounded(steps: seq<Step>, k: string) {
    exists p: Proposal :: Key(p.fact) == k && Grounded(steps, p)
  }

  ghost predicate KeyGroundedAt(steps: seq<Step>, step: Step, k: string) {
    exists p: Proposal :: Key(p.fact) == k && Grounds(steps, step, p)
  }

  lemma PairIsSorted(a: string, b: string)
    requires a != b
    ensures var f := SortedPair(a, b); Less(f.first, f.second) && {f.first, f.second} == {a, b}
  {
    LessTotal(a, b);
  }

  lemma OnlyOnePair(f: Fact, a: string, b: string)
    requires f.Overlap? && Less(f.first, f.second) && {f.first, f.second} == {a, b} && a != b
    ensures f == SortedPair(a, b)
  {
    assert f.first in {a, b} && f.second in {a, b} && a in {f.first, f.second} && b in {f.first, f.second};
    LessAsymmetric(f.first, f.second);
  }

  /** The overlap check offers exactly what the lanes met give grounds for. */
  lemma MeetsExactly(step: Step, other: WatchLane, p: Proposal)
    requires step.Saw? && step.event.body.LaneMandate?
    ensures MeetsLane(step, other, p) <==>
      Clashes(LaneOf(step.event), other) && p == OverlapProposal(LaneOf(step.event), other)
  {
    var lane := LaneOf(step.event);
    if MeetsLane(step, other, p) {
      OnlyOnePair(p.fact, lane.laneId, other.laneId);
    }
    if other.laneId != lane.laneId {
      PairIsSorted(lane.laneId, other.laneId);
    }
  }

  lemma MandateNotes(steps: seq<Step>, s: State, step: Step, k: string)
    requires Tracks(steps, s) && step.Saw? && step.event.body.LaneMandate?
    ensures k in Propose(s, step.event).actioned <==> k in s.actioned || KeyGroundedAt(steps, step, k)
  {
    var lane := LaneOf(step.event);
    OverlapsNoted(Output(s.actioned, []), lane, s.lanes, k);
    if i :| 0 <= i < |s.lanes| && NotesOverlap(lane, s.lanes[i], k) {
      var p := OverlapProposal(lane, s.lanes[i]);
      MeetsExactly(step, s.lanes[i], p);
      assert s.lanes[i] in s.lanes && Grounds(steps, step, p);
    }
    if p: Proposal :| Key(p.fact) == k && Grounds(steps, step, p) {
      var w :| Watched(steps, w) && MeetsLane(step, w, p);
      MeetsExactly(step, w, p);
      assert w in s.lanes;
    }
  }

  lemma ReportNotes(steps: seq<Step>, s: State, step: Step, k: string)
    requires step.Saw? && !step.event.body.LaneMandate?
    ensures k in Propose(s, step.event).actioned <==> k in s.actioned || KeyGroundedAt(steps, step, k)
  {
    var ev := step.event;
    if ev.body.LaneMergeReport? && ev.body.exit in {BudgetExit, PartialExit} {
      assert Grounds(steps, step, Proposal(ev.projectId, ev.conversationId, Exited(ev.body.reportLane)));
    } else if ev.body.LaneAborted? && !ev.body.operatorChoice {
      assert Grounds(steps, step, Proposal(ev.projectId, ev.conversationId, Aborted(ev.body.abortedLane)));
    }
  }

  ghost predicate IdleKey(steps: seq<Step>, step: Step, k: string) {
    exists w :: Watched(steps, w) && FindsIdle(step, w, StallProposal(w)) && Key(StallProposal(w).fact) == k
  }

  ghost predicate WaitingKey(steps: seq<Step>, step: Step, k: string) {
    exists a :: Pending(steps, a) && FindsWaiting(step, a, WaitProposal(a)) && Key(WaitProposal(a).fact) == k
  }

  lemma StallsGrounded(steps: seq<Step>, s: State, step: Step, k: string)
    requires Tracks(steps, s) && step.Swept? && step.now.Some?
    ensures k in SweepLanes(Output(s.actioned, []), s.lanes, step.now.value).actioned <==>
      k in s.actioned || IdleKey(steps, step, k)
  {
    var now := step.now.value;
    StallsNoted(Output(s.actioned, []), s.lanes, now, k);
    if i :| 0 <= i < |s.lanes| && NotesStall(s.lanes[i], now, k) {
      assert s.lanes[i] in s.lanes && FindsIdle(step, s.lanes[i], StallProposal(s.lanes[i]));
    }
    if w :| Watched(steps, w) && FindsIdle(step, w, StallProposal(w)) && Key(StallProposal(w).fact) == k {
      assert w in s.lanes && NotesStall(w, now, k);
    }
  }

  lemma WaitsGrounded(steps: seq<Step>, s: State, step: Step, o: Output, k: string)
    requires Tracks(steps, s) && step.Swept? && step.now.Some?
    ensures k in SweepApprovals(o, s.approvals, step.now.value).actioned <==>
      k in o.actioned || WaitingKey(steps, step, k)
  {
    var now := step.now.value;
    WaitsNoted(o, s.approvals, now, k);
    if i :| 0 <= i < |s.approvals| && NotesWait(s.approvals[i], now, k) {
      assert s.approvals[i] in s.approvals && FindsWaiting(step, s.approvals[i], WaitProposal(s.approvals[i]));
    }
    if a :| Pending(steps, a) && FindsWaiting(step, a, WaitProposal(a)) && Key(WaitProposal(a).fact) == k {
      assert a in s.approvals && NotesWait(a, now, k);
    }
  }

  lemma SweepGrounds(steps: seq<Step>, step: Step, k: string)
    requires step.Swept?
    ensures KeyGroundedAt(steps, step, k) <==> IdleKey(steps, step, k) || WaitingKey(steps, step, k)
  {
    if w :| Watched(steps, w) && FindsIdle(step, w, StallProposal(w)) && Key(StallProposal(w).fact) == k {
      assert Grounds(steps, step, StallProposal(w));
    }
    if a :| Pending(steps, a) && FindsWaiting(step, a, WaitProposal(a)) && Key(WaitProposal(a).fact) == k {
      assert Grounds(steps, step, WaitProposal(a));
    }
    if p: Proposal :| Key(p.fact) == k && Grounds(steps, step, p) {
      if w :| Watched(steps, w) && FindsIdle(step, w, p) {
        assert p == StallProposal(w);
      } else {
        var a :| Pending(steps, a) && FindsWaiting(step, a, p);
        assert p == WaitProposal(a);
      }
    }
  }

  lemma SweepNotes(steps: seq<Step>, s: State, step: Step, k: string)
    requires Tracks(steps, s) && step.Swept?
    ensures k in Sweep(s, step.now).0.actioned <==> k in s.actioned || KeyGroundedAt(steps, step, k)
  {
    SweepGrounds(steps, step, k);
    if step.now.Some? {
      StallsGrounded(steps, s, step, k);
      WaitsGrounded(steps, s, step, SweepLanes(Output(s.actioned, []), s.lanes, step.now.value), k);
    }
  }

  lemma StepNotes(steps: seq<Step>, s: State, step: Step, k: string)
    requires Tracks(steps, s)
    ensures k in StepOf(s, step).0.actioned <==> k in s.actioned || KeyGroundedAt(steps, step, k)
  {
    if step.Swept? {
      SweepNotes(steps, s, step, k);
    } else if step.event.body.LaneMandate? {
      MandateNotes(steps, s, step, k);
    } else {
      ReportNotes(steps, s, step, k);
    }
  }

  lemma GroundedGrows(steps: seq<Step>, step: Step, p: Proposal)
    ensures Grounded(steps + [step], p) <==> Grounded(steps, p) || Grounds(steps, step, p)
  {
    var all, n := steps + [step], |steps|;
    assert all[..n] == steps && all[n] == step;
    if j :| 0 <= j < |all| && Grounds(all[..j], all[j], p) {
      assert j < n ==> steps[..j] == all[..j] && steps[j] == all[j];
    }
    if j :| 0 <= j < |steps| && Grounds(steps[..j], steps[j], p) {
      assert all[..j] == steps[..j] && all[j] == steps[j];
    }
  }

  /**
   * The ledger holds exactly the facts the run gave grounds for: a key is in it after a run if and
   * only if some step reported, met or found it.
   */
  lemma {:induction false} LedgerIsExact(steps: seq<Step>, k: string)
    ensures k in Run(Empty(), steps).0.actioned <==> KeyGrounded(steps, k)
  {
    if steps != [] {
      var before, step := steps[..|steps| - 1], steps[|steps| - 1];
      LedgerIsExact(before, k);
      WatchIsExact(before);
      StepNotes(before, Run(Empty(), before).0, step, k);
      assert steps == before + [step];
      if p: Proposal :| Key(p.fact) == k && (Grounded(steps, p) || Grounded(before, p) || Grounds(before, step, p)) {
        GroundedGrows(before, step, p);
      }
    }
  }

  // ---- every proposal has its grounds ----

  lemma {:induction false} OverlapsOffer(o: Output, lane: WatchLane, others: seq<WatchLane>, p: Proposal)
    requires p in CheckOverlaps(o, lane, others).proposals
    ensures p in o.proposals || exists w :: w in others && Clashes(lane, w) && p == OverlapProposal(lane, w)
    decreases |others|
  {
    if others != [] {
      OverlapsOffer(OverlapAt(o, lane, others[0]), lane, others[1..], p);
    }
  }

  lemma {:induction false} StallsOffer(o: Output, lanes: seq<WatchLane>, now: int, p: Proposal)
    requires p in SweepLanes(o, lanes, now).proposals
    ensures p in o.proposals
      || exists w :: w in lanes && Due(w.lastActivity, now, WATCH_STALL_MS) && p == StallProposal(w)
    decreases |lanes|
  {
    if lanes != [] {
      StallsOffer(StallAt(o, lanes[0], now), lanes[1..], now, p);
    }
  }

  lemma {:induction false} WaitsOffer(o: Output, approvals: seq<WatchApproval>, now: int, p: Proposal)
    requires p in SweepApprovals(o, approvals, now).proposals
    ensures p in o.proposals
      || exists a :: a in approvals && Due(a.requested, now, WATCH_APPROVAL_MS) && p == WaitProposal(a)
    decreases |approvals|
  {
    if approvals != [] {
      WaitsOffer(WaitAt(o, approvals[0], now), approvals[1..], now, p);
    }
  }

  lemma StepHasGrounds(steps: seq<Step>, s: State, step: Step, p: Proposal)
    requires Tracks(steps, s) && p in StepOf(s, step).1
    ensures Grounds(steps, step, p)
  {
    var o := Output(s.actioned, []);
    if step.Swept? {
      var now := step.now.value;
      WaitsOffer(SweepLanes(o, s.lanes, now), s.approvals, now, p);
      if p in SweepLanes(o, s.lanes, now).proposals {
        StallsOffer(o, s.lanes, now, p);
        var w :| w in s.lanes && Due(w.lastActivity, now, WATCH_STALL_MS) && p == StallProposal(w);
        assert Watched(steps, w) && FindsIdle(step, w, p);
      } else {
        var a :| a in s.approvals && Due(a.requested, now, WATCH_APPROVAL_MS) && p == WaitProposal(a);
        assert Pending(steps, a) && FindsWaiting(step, a, p);
      }
    } else if step.event.body.LaneMandate? {
      OverlapsOffer(o, LaneOf(step.event), s.lanes, p);
      var w :| w in s.lanes && Clashes(LaneOf(step.event), w) && p == OverlapProposal(LaneOf(step.event), w);
      MeetsExactly(step, w, p);
      assert Watched(steps, w);
    }
  }

  /** Over every run, each proposal names the project and conversation of its grounds and nothing else. */
  lemma {:induction false} ProposalsAreGrounded(steps: seq<Step>, p: Proposal)
    requires p in Run(Empty(), steps).1
    ensures Grounded(steps, p)
  {
    var before, step := steps[..|steps| - 1], steps[|steps| - 1];
    assert steps == before + [step];
    GroundedGrows(before, step, p);
    if p in Run(Empty(), before).1 {
      ProposalsAreGrounded(before, p);
    } else {
      WatchIsExact(before);
      StepHasGrounds(before, Run(Empty(), before).0, step, p);
    }
  }

  function KeysOf(proposals: seq<Proposal>): (r: set<string>) {
    if proposals == [] then {} else KeysOf(proposals[..|proposals| - 1]) + {Key(proposals[|proposals| - 1].fact)}
  }

  predicate Keyed(proposals: seq<Proposal>, k: string) {
    exists i :: 0 <= i < |proposals| && Key(proposals[i].fact) == k
  }

  lemma {:induction false} KeysOfMember(proposals: seq<Proposal>, k: string)
    ensures k in KeysOf(proposals) <==> Keyed(proposals, k)
  {
    if proposals != [] {
      var n := |proposals| - 1;
      KeysOfMember(proposals[..n], k);
      if i :| 0 <= i < |proposals| && Key(proposals[i].fact) == k {
        assert i < n ==> proposals[..n][i] == proposals[i];
      }
    }
  }

  lemma {:induction false} KeysCount(proposals: seq<Proposal>)
    requires forall i, j | 0 <= i < j < |proposals| :: Key(proposals[i].fact) != Key(proposals[j].fact)
    ensures |KeysOf(proposals)| == |proposals|
  {
    if proposals != [] {
      var n := |proposals| - 1;
      KeysCount(proposals[..n]);
      KeysOfMember(proposals[..n], Key(proposals[n].fact));
    }
  }

  lemma SameSize(a: set<string>, b: set<string>)
    requires a <= b && |a| == |b|
    ensures a == b
  {
    if x :| x in b && x !in a {
      assert a <= b - {x} && |b - {x}| == |b| - 1;
      SubsetIsSmaller(a, b - {x});
    }
  }

  lemma {:induction false} SubsetIsSmaller(a: set<string>, b: set<string>)
    requires a <= b
    ensures |a| <= |b|
    decreases |a|
  {
    if x :| x in a {
      SubsetIsSmaller(a - {x}, b - {x});
    }
  }

  lemma KeysInLedger(steps: seq<Step>, k: string)
    ensures k in Run(Empty(), steps).0.actioned <==> Keyed(Run(Empty(), steps).1, k)
  {
    var (s, proposals) := Run(Empty(), steps);
    OneProposalPerFact(Empty(), steps);
    KeysCount(proposals);
    forall x | x in KeysOf(proposals) ensures x in s.actioned {
      KeysOfMember(proposals, x);
    }
    SameSize(KeysOf(proposals), s.actioned);
    KeysOfMember(proposals, k);
  }

  /** The run proposes on a fact if and only if some step gave grounds for it. */
  lemma ProposedExactly(steps: seq<Step>, k: string)
    ensures Keyed(Run(Empty(), steps).1, k) <==> KeyGrounded(steps, k)
  {
    KeysInLedger(steps, k);
    LedgerIsExact(steps, k);
  }

  // ---- the five rules, one by one ----

  predicate OnLedger(steps: seq<Step>, f: Fact) { Key(f) in Run(Empty(), steps).0.actioned }

  predicate EndsEarly(step: Step, l: string) {
    && step.Saw?
    && (step.event.body == LaneMergeReport(l, BudgetExit) || step.event.body == LaneMergeReport(l, PartialExit))
  }

  /** A lane's early end is on the ledger exactly when a report said `budget` or `partial`. */
  lemma EarlyEndsExactly(steps: seq<Step>, l: string)
    ensures OnLedger(steps, Exited(l)) <==> exists j :: 0 <= j < |steps| && EndsEarly(steps[j], l)
  {
    var f := Exited(l);
    LedgerIsExact(steps, Key(f));
    if p: Proposal :| Key(p.fact) == Key(f) && Grounded(steps, p) {
      KeysTellKinds(p.fact, f);
      var j :| 0 <= j < |steps| && Grounds(steps[..j], steps[j], p);
      assert EndsEarly(steps[j], l);
    }
    if j :| 0 <= j < |steps| && EndsEarly(steps[j], l) {
      var p := Proposal(steps[j].event.projectId, steps[j].event.conversationId, f);
      assert Grounds(steps[..j], steps[j], p);
      assert Grounded(steps, p);
    }
  }

  predicate Fails(step: Step, l: string) { step.Saw? && step.event.body == LaneAborted(l, false) }

  /** An abort is on the ledger exactly when one was not the operator's choice. */
  lemma FailuresExactly(steps: seq<Step>, l: string)
    ensures OnLedger(steps, Aborted(l)) <==> exists j :: 0 <= j < |steps| && Fails(steps[j], l)
  {
    var f := Aborted(l);
    LedgerIsExact(steps, Key(f));
    if p: Proposal :| Key(p.fact) == Key(f) && Grounded(steps, p) {
      KeysTellKinds(p.fact, f);
      var j :| 0 <= j < |steps| && Grounds(steps[..j], steps[j], p);
      assert Fails(steps[j], l);
    }
    if j :| 0 <= j < |steps| && Fails(steps[j], l) {
      var p := Proposal(steps[j].event.projectId, steps[j].event.conversationId, f);
      assert Grounds(steps[..j], steps[j], p);
      assert Grounded(steps, p);
    }
  }

  /** A sweep at least `threshold` after a moment that parses. */
  predicate SweptLate(step: Step, since: Stamp, threshold: int) {
    step.Swept? && step.now.Some? && since.ms.Some? && step.now.value - since.ms.value >= threshold
  }

  /** Before step `j`, a sweep, the approval had been pending since step `m` for three minutes. */
  predicate WaitedAt(steps: seq<Step>, a: string, m: nat, j: nat) {
    && m < j < |steps| && Requests(steps[m], a) && SweptLate(steps[j], steps[m].event.ts, 180_000)
    && forall k | m < k < j :: !Requests(steps[k], a) && !Resolves(steps[k], a)
  }

  lemma WaitIsGrounded(steps: seq<Step>, a: string, m: nat, j: nat)
    requires WaitedAt(steps, a, m, j)
    ensures KeyGrounded(steps, Key(Waiting(a)))
  {
    var ev := steps[m].event;
    var w := WatchApproval(a, ev.projectId, ev.conversationId, ev.ts);
    var p := WaitProposal(w);
    assert PendingBy(steps[..j], w, m);
    assert FindsWaiting(steps[j], w, p) && Grounds(steps[..j], steps[j], p);
    assert Grounded(steps, p);
  }

  /** An approval is on the ledger exactly when some sweep found it pending for three minutes. */
  lemma WaitsExactly(steps: seq<Step>, a: string)
    ensures OnLedger(steps, Waiting(a)) <==> exists m: nat, j: nat :: WaitedAt(steps, a, m, j)
  {
    var f := Waiting(a);
    LedgerIsExact(steps, Key(f));
    if p: Proposal :| Key(p.fact) == Key(f) && Grounded(steps, p) {
      KeysTellKinds(p.fact, f);
      var j :| 0 <= j < |steps| && Grounds(steps[..j], steps[j], p);
      var w :| Pending(steps[..j], w) && FindsWaiting(steps[j], w, p);
      var m: nat :| PendingBy(steps[..j], w, m);
      assert forall k {:trigger steps[k]} | 0 <= k < j :: steps[k] == steps[..j][k];
      assert WaitedAt(steps, a, m, j);
    }
    if m: nat, j: nat :| WaitedAt(steps, a, m, j) {
      WaitIsGrounded(steps, a, m, j);
    }
  }

  predicate PlainLanes(steps: seq<Step>) {
    forall j | 0 <= j < |steps| && steps[j].Saw? && steps[j].event.body.LaneMandate? ::
      Plain(steps[j].event.body.laneId)
  }

  /** Before step `j`, a sweep, the lane was active and had been idle since step `t` for ten minutes. */
  predicate IdledAt(steps: seq<Step>, l: string, since: string, m: nat, t: nat, j: nat) {
    && m <= t < j < |steps| && ActiveBy(steps[..j], l, m, t)
    && steps[t].event.ts.text == since && SweptLate(steps[j], steps[t].event.ts, 600_000)
  }

  /**
   * A stall since a moment is on the ledger exactly when some sweep came ten minutes after it, with
   * the lane's last mandate, progress or report at that moment and the lane not ended.
   */
  lemma StallsExactly(steps: seq<Step>, l: string, since: string)
    requires Plain(l) && PlainLanes(steps)
    ensures OnLedger(steps, Stalled(l, since)) <==>
      exists m: nat, t: nat, j: nat :: IdledAt(steps, l, since, m, t, j)
  {
    var f := Stalled(l, since);
    LedgerIsExact(steps, Key(f));
    if p: Proposal :| Key(p.fact) == Key(f) && Grounded(steps, p) {
      KeysTellKinds(p.fact, f);
      var j :| 0 <= j < |steps| && Grounds(steps[..j], steps[j], p);
      var w :| Watched(steps[..j], w) && FindsIdle(steps[j], w, p);
      var m: nat, t: nat :| WatchedBy(steps[..j], w, m, t);
      assert steps[..j][m] == steps[m] && steps[..j][t] == steps[t];
      KeysIdentifyFacts(p.fact, f);
      assert IdledAt(steps, l, since, m, t, j);
    }
    if m: nat, t: nat, j: nat :| IdledAt(steps, l, since, m, t, j) {
      assert steps[..j][m] == steps[m] && steps[..j][t] == steps[t];
      var ev := steps[m].event;
      var w := WatchLane(l, ev.projectId, ev.conversationId, ev.body.scopePaths, steps[t].event.ts);
      assert WatchedBy(steps[..j], w, m, t);
      assert FindsIdle(steps[j], w, StallProposal(w)) && Grounds(steps[..j], steps[j], StallProposal(w));
      assert Grounded(steps, StallProposal(w));
    }
  }

  /** Step `j` mandates a lane while another one of its project is active that shares a path with it. */
  ghost predicate MetAt(steps: seq<Step>, a: string, b: string, j: nat) {
    && j < |steps| && Mandates(steps[j], a)
    && exists w :: Watched(steps[..j], w) && w.laneId == b && w.projectId == steps[j].event.projectId
                   && ScopesOverlap(steps[j].event.body.scopePaths, w.scopePaths)
  }

  lemma MetIsGrounded(steps: seq<Step>, a: string, b: string, x: string, y: string, j: nat)
    requires Less(a, b) && {x, y} == {a, b} && x != y && MetAt(steps, x, y, j)
    ensures KeyGrounded(steps, Key(Overlap(a, b)))
  {
    var ev := steps[j].event;
    var w :| Watched(steps[..j], w) && w.laneId == y && w.projectId == ev.projectId
             && ScopesOverlap(ev.body.scopePaths, w.scopePaths);
    var p := Proposal(ev.projectId, ev.conversationId, Overlap(a, b));
    assert MeetsLane(steps[j], w, p) && Grounds(steps[..j], steps[j], p);
    assert Grounded(steps, p);
  }

  lemma MeetingIsMet(steps: seq<Step>, j: nat, w: WatchLane, p: Proposal)
    requires j < |steps| && Watched(steps[..j], w) && MeetsLane(steps[j], w, p)
    ensures var a, b := p.fact.first, p.fact.second; MetAt(steps, a, b, j) || MetAt(steps, b, a, j)
  {
    var x := steps[j].event.body.laneId;
    OnlyOnePair(p.fact, x, w.laneId);
    assert MetAt(steps, x, w.laneId, j);
  }

  lemma MeetingIsPlain(steps: seq<Step>, j: nat, w: WatchLane, p: Proposal)
    requires PlainLanes(steps) && j < |steps| && Watched(steps[..j], w) && MeetsLane(steps[j], w, p)
    ensures PlainFact(p.fact)
  {
    var m: nat, t: nat :| WatchedBy(steps[..j], w, m, t);
    assert Mandates(steps[m], w.laneId);
    OnlyOnePair(p.fact, steps[j].event.body.laneId, w.laneId);
  }

  lemma MeetingOf(steps: seq<Step>, step: Step, p: Proposal) returns (w: WatchLane)
    requires Grounds(steps, step, p) && p.fact.Overlap?
    ensures Watched(steps, w) && MeetsLane(step, w, p)
  {
    w :| Watched(steps, w) && MeetsLane(step, w, p);
  }

  lemma GroundedIsMet(steps: seq<Step>, f: Fact, p: Proposal)
    requires f.Overlap? && PlainFact(f) && PlainLanes(steps) && Key(p.fact) == Key(f) && Grounded(steps, p)
    ensures exists j: nat :: MetAt(steps, f.first, f.second, j) || MetAt(steps, f.second, f.first, j)
  {
    KeysTellKinds(p.fact, f);
    var j :| 0 <= j < |steps| && Grounds(steps[..j], steps[j], p);
    var w := MeetingOf(steps[..j], steps[j], p);
    MeetingIsPlain(steps, j, w, p);
    KeysIdentifyFacts(p.fact, f);
    MeetingIsMet(steps, j, w, p);
  }

  /** A pair is on the ledger exactly when one of the two was mandated while it overlapped the other. */
  lemma OverlapsExactly(steps: seq<Step>, a: string, b: string)
    requires Plain(a) && Plain(b) && Less(a, b) && PlainLanes(steps)
    ensures OnLedger(steps, Overlap(a, b)) <==> exists j: nat :: MetAt(steps, a, b, j) || MetAt(steps, b, a, j)
  {
    var f := Overlap(a, b);
    LedgerIsExact(steps, Key(f));
    LessIrreflexive(a);
    if p: Proposal :| Key(p.fact) == Key(f) && Grounded(steps, p) {
      GroundedIsMet(steps, f, p);
    }
    if j: nat :| MetAt(steps, a, b, j) || MetAt(steps, b, a, j) {
      if MetAt(steps, a, b, j) {
        MetIsGrounded(steps, a, b, a, b, j);
      } else {
        MetIsGrounded(steps, a, b, b, a, j);
      }
    }
  }
}
