/**
 * The Watcher's decision core (packages/daemon/src/watch-decide.ts): events and sweeps folded into
 * a state with a ledger that allows one action per fact.
 */
module Watcher {
  import opened Order
  import opened LaneScope

  /** A timestamp as written, and the moment it parses to, if it parses. */
  datatype Stamp = Stamp(text: string, ms: Option<int>)

  datatype WatchLane = WatchLane(
    laneId: string,
    projectId: string,
    conversationId: string,
    scopePaths: seq<string>,
    lastActivity: Stamp)

  datatype WatchApproval = WatchApproval(
    approvalId: string,
    projectId: string,
    conversationId: string,
    requested: Stamp)

  /** What an action is about. */
  datatype Fact =
    | Overlap(first: string, second: string)
    | Exited(laneId: string)
    | Aborted(laneId: string)
    | Stalled(laneId: string, since: string)
    | Waiting(approvalId: string)

  /** An Inbox proposal; its wording is left out. */
  datatype Proposal = Proposal(projectId: string, conversationId: string, fact: Fact)

  datatype Exit = DoneExit | PartialExit | AbortedExit | BudgetExit | CancelledExit

  /** `operatorChoice` says whether an abort's reason is a denial or a cancellation. */
  datatype Body =
    | LaneMandate(laneId: string, scopePaths: seq<string>)
    | LaneProgress(progressLane: Option<string>)
    | LaneMergeReport(reportLane: string, exit: Exit)
    | LaneCompleted(completedLane: string)
    | LaneAborted(abortedLane: string, operatorChoice: bool)
    | ApprovalRequested(requestedId: string)
    | ApprovalResolved(resolvedId: string)
    | OtherBody

  datatype Event = Event(projectId: string, conversationId: string, ts: Stamp, body: Body)

  /** `lanes` and `approvals` are in insertion order, one entry per id. */
  datatype State = State(lanes: seq<WatchLane>, approvals: seq<WatchApproval>, actioned: set<string>)

  const WATCH_STALL_MS := 600_000
  const WATCH_APPROVAL_MS := 180_000

  function Empty(): State { State([], [], {}) }

  function SortedPair(a: string, b: string): Fact {
    if Less(b, a) then Overlap(b, a) else Overlap(a, b)
  }

  /** The ledger key of a fact. */
  function Key(f: Fact): string {
    match f
    case Overlap(a, b) => "overlap:" + a + ":" + b
    case Exited(l) => "exit:" + l
    case Aborted(l) => "abort:" + l
    case Stalled(l, since) => "stall:" + l + ":" + since
    case Waiting(a) => "approval:" + a
  }

  /** The ledger and the proposals of the current call: `once` and the push it guards. */
  datatype Output = Output(actioned: set<string>, proposals: seq<Proposal>)

  function Once(o: Output, p: Proposal): Output {
    if Key(p.fact) in o.actioned then o else Output(o.actioned + {Key(p.fact)}, o.proposals + [p])
  }

  predicate Clashes(lane: WatchLane, other: WatchLane) {
    && other.projectId == lane.projectId && other.laneId != lane.laneId
    && lane.scopePaths != [] && other.scopePaths != []
    && ScopesOverlap(lane.scopePaths, other.scopePaths)
  }

  function OverlapProposal(lane: WatchLane, other: WatchLane): Proposal {
    Proposal(lane.projectId, lane.conversationId, SortedPair(lane.laneId, other.laneId))
  }

  function OverlapAt(o: Output, lane: WatchLane, other: WatchLane): Output {
    if Clashes(lane, other) then Once(o, OverlapProposal(lane, other)) else o
  }

  /** The overlap check of a new mandate against the lanes already there. */
  function CheckOverlaps(o: Output, lane: WatchLane, others: seq<WatchLane>): Output
    decreases |others|
  {
    if others == [] then o
    else CheckOverlaps(OverlapAt(o, lane, others[0]), lane, others[1..])
  }

  function IndexOf(lanes: seq<WatchLane>, laneId: string): (i: nat)
    ensures i <= |lanes|
    ensures i < |lanes| ==> lanes[i].laneId == laneId
    ensures forall k | 0 <= k < i :: lanes[k].laneId != laneId
  {
    if lanes == [] || lanes[0].laneId == laneId then 0 else 1 + IndexOf(lanes[1..], laneId)
  }

  /** Assigning an entry keeps its place; a new one goes last. */
  function PutLane(lanes: seq<WatchLane>, lane: WatchLane): seq<WatchLane> {
    var i := IndexOf(lanes, lane.laneId);
    if i < |lanes| then lanes[i := lane] else lanes + [lane]
  }

  function Touch(lanes: seq<WatchLane>, laneId: string, ts: Stamp): seq<WatchLane> {
    var i := IndexOf(lanes, laneId);
    if i < |lanes| then lanes[i := lanes[i].(lastActivity := ts)] else lanes
  }

  function DropLane(lanes: seq<WatchLane>, laneId: string): (r: seq<WatchLane>)
    ensures forall l :: l in r <==> l in lanes && l.laneId != laneId
  {
    if lanes == [] then []
    else (if lanes[0].laneId == laneId then [] else [lanes[0]]) + DropLane(lanes[1..], laneId)
  }

  function DropApproval(approvals: seq<WatchApproval>, id: string): (r: seq<WatchApproval>)
    ensures forall a :: a in r <==> a in approvals && a.approvalId != id
  {
    if approvals == [] then []
    else (if approvals[0].approvalId == id then [] else [approvals[0]]) + DropApproval(approvals[1..], id)
  }

  function ApprovalIndex(approvals: seq<WatchApproval>, id: string): (i: nat)
    ensures i <= |approvals|
    ensures i < |approvals| ==> approvals[i].approvalId == id
    ensures forall k | 0 <= k < i :: approvals[k].approvalId != id
  {
    if approvals == [] || approvals[0].approvalId == id then 0 else 1 + ApprovalIndex(approvals[1..], id)
  }

  function PutApproval(approvals: seq<WatchApproval>, a: WatchApproval): seq<WatchApproval> {
    var i := ApprovalIndex(approvals, a.approvalId);
    if i < |approvals| then approvals[i := a] else approvals + [a]
  }

  function LaneOf(ev: Event): WatchLane
    requires ev.body.LaneMandate?
  {
    WatchLane(ev.body.laneId, ev.projectId, ev.conversationId, ev.body.scopePaths, ev.ts)
  }

  /** What an event does to the lanes and approvals. */
  function Track(s: State, ev: Event): State {
    match ev.body
    case LaneMandate(_, _) => s.(lanes := PutLane(s.lanes, LaneOf(ev)))
    case LaneProgress(laneId) => if Truthy(laneId) then s.(lanes := Touch(s.lanes, laneId.value, ev.ts)) else s
    case LaneMergeReport(laneId, _) => s.(lanes := Touch(s.lanes, laneId, ev.ts))
    case LaneCompleted(laneId) => s.(lanes := DropLane(s.lanes, laneId))
    case LaneAborted(laneId, _) => s.(lanes := DropLane(s.lanes, laneId))
    case ApprovalRequested(id) =>
      s.(approvals := PutApproval(s.approvals, WatchApproval(id, ev.projectId, ev.conversationId, ev.ts)))
    case ApprovalResolved(id) => s.(approvals := DropApproval(s.approvals, id))
    case OtherBody => s
  }

  /** What an event proposes. */
  function Propose(s: State, ev: Event): Output {
    var o := Output(s.actioned, []);
    match ev.body
    case LaneMandate(_, _) => CheckOverlaps(o, LaneOf(ev), s.lanes)
    case LaneMergeReport(laneId, exit) =>
      if exit == BudgetExit || exit == PartialExit
      then Once(o, Proposal(ev.projectId, ev.conversationId, Exited(laneId))) else o
    case LaneAborted(laneId, operatorChoice) =>
      if !operatorChoice then Once(o, Proposal(ev.projectId, ev.conversationId, Aborted(laneId))) else o
    case _ => o
  }

  function Decide(s: State, ev: Event): (State, seq<Proposal>) {
    var o := Propose(s, ev);
    (Track(s, ev).(actioned := o.actioned), o.proposals)
  }

  /** Idle or waiting for so long; a timestamp that does not parse never is. */
  predicate Due(since: Stamp, now: int, threshold: int) {
    since.ms.Some? && now - since.ms.value >= threshold
  }

  function StallProposal(l: WatchLane): Proposal {
    Proposal(l.projectId, l.conversationId, Stalled(l.laneId, l.lastActivity.text))
  }

  function WaitProposal(a: WatchApproval): Proposal {
    Proposal(a.projectId, a.conversationId, Waiting(a.approvalId))
  }

  function StallAt(o: Output, lane: WatchLane, now: int): Output {
    if Due(lane.lastActivity, now, WATCH_STALL_MS) then Once(o, StallProposal(lane)) else o
  }

  function WaitAt(o: Output, approval: WatchApproval, now: int): Output {
    if Due(approval.requested, now, WATCH_APPROVAL_MS) then Once(o, WaitProposal(approval)) else o
  }

  function SweepLanes(o: Output, lanes: seq<WatchLane>, now: int): Output
    decreases |lanes|
  {
    if lanes == [] then o
    else SweepLanes(StallAt(o, lanes[0], now), lanes[1..], now)
  }

  function SweepApprovals(o: Output, approvals: seq<WatchApproval>, now: int): Output
    decreases |approvals|
  {
    if approvals == [] then o
    else
      SweepApprovals(WaitAt(o, approvals[0], now), approvals[1..], now)
  }

  function Sweep(s: State, now: Option<int>): (State, seq<Proposal>) {
    if now.None? then (s, [])
    else
      var o := SweepApprovals(SweepLanes(Output(s.actioned, []), s.lanes, now.value), s.approvals, now.value);
      (s.(actioned := o.actioned), o.proposals)
  }

  // ---- the watch state itself ----

  class WatchStore {
    var lanes: seq<WatchLane>
    var approvals: seq<WatchApproval>
    var actioned: set<string>

    ghost function View(): State
      reads this
    {
      State(lanes, approvals, actioned)
    }

    constructor ()
      ensures View() == Empty()
    {
      lanes, approvals, actioned := [], [], {};
    }

    method DoOnce(key: string) returns (first: bool)
      modifies this`actioned
      ensures first == (key !in old(actioned)) && actioned == old(actioned) + {key}
    {
      first := key !in actioned;
      if first {
        actioned := actioned + {key};
      }
    }

    method Offer(p: Proposal, proposals: seq<Proposal>) returns (next: seq<Proposal>)
      modifies this`actioned
      ensures Output(actioned, next) == Once(Output(old(actioned), proposals), p)
    {
      next := proposals;
      var first := DoOnce(Key(p.fact));
      if first {
        next := proposals + [p];
      }
    }

    method DecideWatch(ev: Event) returns (proposals: seq<Proposal>)
      modifies this
      ensures (View(), proposals) == Decide(old(View()), ev)
    {
      proposals := [];
      match ev.body
      case LaneMandate(_, _) =>
        var lane := LaneOf(ev);
        for i := 0 to |lanes|
          invariant lanes == old(lanes) && approvals == old(approvals)
          invariant CheckOverlaps(Output(old(actioned), []), lane, lanes)
            == CheckOverlaps(Output(actioned, proposals), lane, lanes[i..])
        {
          var other := lanes[i];
          assert lanes[i..][1..] == lanes[i + 1..];
          if other.projectId == ev.projectId && other.laneId != lane.laneId {
            if |lane.scopePaths| > 0 && |other.scopePaths| > 0 && ScopesOverlap(lane.scopePaths, other.scopePaths) {
              proposals := Offer(OverlapProposal(lane, other), proposals);
            }
          }
        }
        lanes := PutLane(lanes, lane);
      case LaneProgress(laneId) =>
        if Truthy(laneId) {
          lanes := Touch(lanes, laneId.value, ev.ts);
        }
      case LaneMergeReport(laneId, exit) =>
        lanes := Touch(lanes, laneId, ev.ts);
        if exit == BudgetExit || exit == PartialExit {
          proposals := Offer(Proposal(ev.projectId, ev.conversationId, Exited(laneId)), proposals);
        }
      case LaneCompleted(laneId) =>
        lanes := DropLane(lanes, laneId);
      case LaneAborted(laneId, operatorChoice) =>
        lanes := DropLane(lanes, laneId);
        if !operatorChoice {
          proposals := Offer(Proposal(ev.projectId, ev.conversationId, Aborted(laneId)), proposals);
        }
      case ApprovalRequested(id) =>
        approvals := PutApproval(approvals, WatchApproval(id, ev.projectId, ev.conversationId, ev.ts));
      case ApprovalResolved(id) =>
        approvals := DropApproval(approvals, id);
      case OtherBody =>
    }

    method DecideSweep(now: Option<int>) returns (proposals: seq<Proposal>)
      modifies this
      ensures (View(), proposals) == Sweep(old(View()), now)
    {
      proposals := [];
      if now.None? {
        return;
      }
      var t := now.value;
      for i := 0 to |lanes|
        invariant lanes == old(lanes) && approvals == old(approvals)
        invariant SweepLanes(Output(old(actioned), []), lanes, t)
          == SweepLanes(Output(actioned, proposals), lanes[i..], t)
      {
        assert lanes[i..][1..] == lanes[i + 1..];
        if Due(lanes[i].lastActivity, t, WATCH_STALL_MS) {
          proposals := Offer(StallProposal(lanes[i]), proposals);
        }
      }
      ghost var swept := Output(actioned, proposals);
      for i := 0 to |approvals|
        invariant lanes == old(lanes) && approvals == old(approvals)
        invariant SweepApprovals(swept, approvals, t) == SweepApprovals(Output(actioned, proposals), approvals[i..], t)
      {
        assert approvals[i..][1..] == approvals[i + 1..];
        if Due(approvals[i].requested, t, WATCH_APPROVAL_MS) {
          proposals := Offer(WaitProposal(approvals[i]), proposals);
        }
      }
    }
  }
}
