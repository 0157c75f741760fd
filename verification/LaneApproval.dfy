/**
 * The Approval Constitution (packages/daemon/src/lane-approval.ts) and what it guarantees about
 * the lanes a daemon runs side by side.
 */
module LaneApproval {
  import opened Order
  import opened LaneScope

  datatype ActionClass =
    | DryRun | ReadOnlyResearch | JailedEdit | InteractiveSession | WritesSharedRoot
    | SpendOverThreshold | NetworkEgress | ScopeOverlap | OutwardOrIrreversible

  datatype Approvals = Forward | AutoSafe | Sandboxed
  datatype Gate = Auto | Approval

  /** `outward` says whether the goal's wording names an outward or irreversible act. */
  datatype Mandate = Mandate(
    outward: bool,
    networkNone: bool,
    paths: seq<string>,
    maxUsd: Option<real>,
    maxTokens: Option<int>,
    approvals: Approvals)

  datatype Posture = Posture(
    realExecution: bool,
    dryRun: bool,
    kind: string,
    workspacesRoot: Option<string>,
    maxUsdCap: real,
    maxTokensCap: int,
    scopeConflicts: seq<string>)

  const TMUX := "-tmux"

  predicate Interactive(kind: string) { |kind| >= |TMUX| && kind[|kind| - |TMUX|..] == TMUX }

  predicate OverSpend(m: Mandate, p: Posture) {
    || (m.maxUsd.Some? && m.maxUsd.value > p.maxUsdCap)
    || (m.maxTokens.Some? && m.maxTokens.value > p.maxTokensCap)
  }

  predicate Jailed(m: Mandate, p: Posture) {
    Truthy(p.workspacesRoot) && m.paths != [] && AllWithin(m.paths, p.workspacesRoot.value)
  }

  function Classify(m: Mandate, p: Posture): ActionClass {
    if Interactive(p.kind) then InteractiveSession
    else if p.scopeConflicts != [] then ScopeOverlap
    else if !m.networkNone then NetworkEgress
    else if m.outward then OutwardOrIrreversible
    else if OverSpend(m, p) then SpendOverThreshold
    else if p.kind == "research" then ReadOnlyResearch
    else if Jailed(m, p) then JailedEdit
    else WritesSharedRoot
  }

  predicate Material(c: ActionClass) {
    c != DryRun && c != ReadOnlyResearch && c != JailedEdit
  }

  function Resolve(m: Mandate, p: Posture): (Gate, ActionClass) {
    if p.dryRun || !p.realExecution then (Auto, DryRun)
    else
      var c := Classify(m, p);
      if m.approvals == Forward then (Approval, c)
      else if Material(c) then (Approval, c) else (Auto, c)
  }

  // ---- the constitution as a table ----

  /** The classes in order of precedence, most consequential first. */
  function Precedence(c: ActionClass): nat {
    match c
    case DryRun => 0
    case InteractiveSession => 1
    case ScopeOverlap => 2
    case NetworkEgress => 3
    case OutwardOrIrreversible => 4
    case SpendOverThreshold => 5
    case ReadOnlyResearch => 6
    case JailedEdit => 7
    case WritesSharedRoot => 8
  }

  /** When an act is of a class, looked at by itself. */
  ghost predicate Applies(c: ActionClass, m: Mandate, p: Posture) {
    match c
    case DryRun => p.dryRun || !p.realExecution
    case InteractiveSession => exists stem: string :: p.kind == stem + "-tmux"
    case ScopeOverlap => |p.scopeConflicts| > 0
    case NetworkEgress => !m.networkNone
    case OutwardOrIrreversible => m.outward
    case SpendOverThreshold =>
      || (exists usd :: m.maxUsd == Some(usd) && p.maxUsdCap < usd)
      || (exists tokens :: m.maxTokens == Some(tokens) && p.maxTokensCap < tokens)
    case ReadOnlyResearch => p.kind == "research"
    case JailedEdit =>
      m.paths != [] && exists root ::
        p.workspacesRoot == Some(root) && root != "" && forall path | path in m.paths :: IsWithin(path, root)
    case WritesSharedRoot => true
  }

  lemma InteractiveIsSuffix(kind: string)
    ensures Interactive(kind) <==> exists stem: string :: kind == stem + "-tmux"
  {
    if Interactive(kind) {
      assert kind == kind[..|kind| - |TMUX|] + TMUX;
    }
    if stem: string :| kind == stem + "-tmux" {
      assert kind[|kind| - |TMUX|..] == TMUX;
    }
  }

  lemma SpendAndJail(m: Mandate, p: Posture)
    ensures Applies(SpendOverThreshold, m, p) <==> OverSpend(m, p)
    ensures Applies(JailedEdit, m, p) <==> Jailed(m, p)
  {
  }

  /**
   * Whatever the mandate and the posture, the class given is the first in order of precedence that
   * applies; the act goes ahead unasked exactly when it is a dry run, or read-only research or a
   * jailed edit of a lane that did not ask to forward everything.
   */
  lemma PolicyExactly(m: Mandate, p: Posture)
    ensures var (gate, c) := Resolve(m, p);
            && Applies(c, m, p)
            && (forall d :: Precedence(d) < Precedence(c) ==> !Applies(d, m, p))
            && (gate == Auto <==>
                  c == DryRun || (m.approvals != Forward && (c == ReadOnlyResearch || c == JailedEdit)))
  {
    InteractiveIsSuffix(p.kind);
    SpendAndJail(m, p);
  }

  // ---- the lanes a daemon runs ----

  /** `gated` lanes wait for, or have, the operator's consent. */
  datatype Lane = Lane(laneId: string, mandate: Mandate, kind: string, gated: bool)

  datatype Daemon = Daemon(workspacesRoot: Option<string>, maxUsdCap: real, maxTokensCap: int)

  datatype Request =
    | Start(laneId: string, mandate: Mandate, kind: string)
    | End(laneId: string)

  function Scopes(lanes: seq<Lane>): seq<ActiveScope> {
    seq(|lanes|, i requires 0 <= i < |lanes| => ActiveScope(lanes[i].laneId, lanes[i].mandate.paths))
  }

  function PostureOf(d: Daemon, kind: string, lanes: seq<Lane>, paths: seq<string>): Posture {
    var conflicts := ActiveScopeConflicts(paths, Scopes(lanes));
    Posture(true, false, kind, d.workspacesRoot, d.maxUsdCap, d.maxTokensCap, conflicts)
  }

  function Remove(lanes: seq<Lane>, laneId: string): seq<Lane> {
    if lanes == [] then []
    else (if lanes[0].laneId == laneId then [] else [lanes[0]]) + Remove(lanes[1..], laneId)
  }

  /** A daemon that executes for real: every start is judged against the lanes active at that moment. */
  function Handle(d: Daemon, lanes: seq<Lane>, r: Request): seq<Lane> {
    match r
    case Start(laneId, m, kind) =>
      lanes + [Lane(laneId, m, kind, Resolve(m, PostureOf(d, kind, lanes, m.paths)).0 == Approval)]
    case End(laneId) => Remove(lanes, laneId)
  }

  function HandleAll(d: Daemon, lanes: seq<Lane>, rs: seq<Request>): seq<Lane>
    decreases |rs|
  {
    if rs == [] then lanes else HandleAll(d, Handle(d, lanes, rs[0]), rs[1..])
  }

  /** What an ungated lane can do: nothing outward, nothing unbounded, nothing outside the jail. */
  predicate Contained(d: Daemon, l: Lane) {
    && !Interactive(l.kind) && l.mandate.networkNone && !l.mandate.outward && l.mandate.approvals != Forward
    && (l.mandate.maxUsd.Some? ==> l.mandate.maxUsd.value <= d.maxUsdCap)
    && (l.mandate.maxTokens.Some? ==> l.mandate.maxTokens.value <= d.maxTokensCap)
    && (l.kind == "research"
        || (Truthy(d.workspacesRoot) && l.mandate.paths != [] && AllWithin(l.mandate.paths, d.workspacesRoot.value)))
  }

  /** A lane that shares a path with an older one was put before the operator, or the daemon is wrong. */
  predicate Governed(d: Daemon, lanes: seq<Lane>) {
    && (forall i | 0 <= i < |lanes| && !lanes[i].gated :: Contained(d, lanes[i]))
    && (forall i, j | 0 <= i < j < |lanes| && !lanes[j].gated ::
          !ScopesOverlap(lanes[j].mandate.paths, lanes[i].mandate.paths))
  }

  /** The gate stays open exactly for a contained lane that overlaps no active one. */
  lemma UngatedExactly(d: Daemon, lanes: seq<Lane>, m: Mandate, kind: string, laneId: string)
    ensures Resolve(m, PostureOf(d, kind, lanes, m.paths)).0 == Auto <==>
      && Contained(d, Lane(laneId, m, kind, false))
      && forall i | 0 <= i < |lanes| :: !ScopesOverlap(m.paths, lanes[i].mandate.paths)
  {
    NoConflictsExactly(m.paths, Scopes(lanes));
    assert forall i | 0 <= i < |lanes| :: Scopes(lanes)[i].paths == lanes[i].mandate.paths;
  }

  lemma StartKeepsGoverned(d: Daemon, lanes: seq<Lane>, laneId: string, m: Mandate, kind: string)
    requires Governed(d, lanes)
    ensures Governed(d, Handle(d, lanes, Start(laneId, m, kind)))
  {
    UngatedExactly(d, lanes, m, kind, laneId);
  }

  lemma {:induction false} RemoveKeepsGoverned(d: Daemon, lanes: seq<Lane>, laneId: string)
    requires Governed(d, lanes)
    ensures Governed(d, Remove(lanes, laneId))
    ensures forall l | l in Remove(lanes, laneId) :: l in lanes
  {
    if lanes != [] {
      var head, rest := lanes[0], Remove(lanes[1..], laneId);
      RemoveKeepsGoverned(d, lanes[1..], laneId);
      forall j | 0 <= j < |rest| && !rest[j].gated
        ensures !ScopesOverlap(rest[j].mandate.paths, head.mandate.paths)
      {
        assert rest[j] in lanes[1..];
        var k :| 0 <= k < |lanes[1..]| && lanes[1..][k] == rest[j];
        assert lanes[k + 1] == rest[j];
      }
    }
  }

  /**
   * Over every run of starts and ends: each lane that runs without the operator is contained, and
   * shares no path with any lane that was active when it started and still is.
   */
  lemma {:induction false} RunsAreGoverned(d: Daemon, lanes: seq<Lane>, rs: seq<Request>)
    requires Governed(d, lanes)
    ensures Governed(d, HandleAll(d, lanes, rs))
    decreases |rs|
  {
    if rs != [] {
      match rs[0] {
        case Start(laneId, m, kind) => StartKeepsGoverned(d, lanes, laneId, m, kind);
        case End(laneId) => RemoveKeepsGoverned(d, lanes, laneId);
      }
      RunsAreGoverned(d, Handle(d, lanes, rs[0]), rs[1..]);
    }
  }
}
