/** Live terminal panes, last writer wins by capture time (apps/web/src/session-state.ts). */
module SessionPanes {
  import opened Order

  /** A timestamp as written, and the moment it parses to, if it parses; the empty text does not. */
  datatype Written = Stamp(text: string, ms: Option<int>)

  type Stamp = s: Written | s.text == "" ==> s.ms == None witness Stamp("", None)

  datatype Pane = Pane(text: string, state: string, live: bool, capturedAt: Option<Stamp>)

  type Panes = map<string, Pane>

  /** A live frame, a snapshot from the RPC, or a frame whose fields are not what they should be. */
  datatype Delivery =
    | LiveFrame(laneId: string, text: string, state: string, ts: Stamp)
    | Snapshot(laneId: string, text: string, state: string, live: bool, ts: Stamp)
    | Malformed

  predicate Stamped(than: Option<Stamp>) { than.Some? && than.value.text != "" }

  predicate IsOlder(ts: Stamp, than: Option<Stamp>) {
    Stamped(than) && ts.ms.Some? && than.value.ms.Some? && ts.ms.value < than.value.ms.value
  }

  predicate IsSameOrOlder(ts: Stamp, than: Option<Stamp>) {
    Stamped(than) && ts.ms.Some? && than.value.ms.Some? && ts.ms.value <= than.value.ms.value
  }

  function PaneOf(d: Delivery): Pane
    requires !d.Malformed?
  {
    Pane(d.text, d.state, if d.LiveFrame? then true else d.live, Some(d.ts))
  }

  function CapturedAt(panes: Panes, laneId: string): Option<Stamp> {
    if laneId in panes then panes[laneId].capturedAt else None
  }

  function ReduceSessionPane(panes: Panes, d: Delivery): Panes
    requires !d.Snapshot?
  {
    if d.Malformed? || IsOlder(d.ts, CapturedAt(panes, d.laneId)) then panes
    else panes[d.laneId := PaneOf(d)]
  }

  function HydrateSnapshot(panes: Panes, d: Delivery): Panes
    requires d.Snapshot?
  {
    if IsOlder(d.ts, CapturedAt(panes, d.laneId)) then panes
    else if
      d.laneId in panes && panes[d.laneId].live && !d.live && IsSameOrOlder(d.ts, panes[d.laneId].capturedAt)
    then panes
    else panes[d.laneId := PaneOf(d)]
  }

  function Deliver(panes: Panes, d: Delivery): Panes {
    if d.Snapshot? then HydrateSnapshot(panes, d) else ReduceSessionPane(panes, d)
  }

  function DeliverAll(ds: seq<Delivery>): Panes {
    if ds == [] then map[] else Deliver(DeliverAll(ds[..|ds| - 1]), ds[|ds| - 1])
  }

  // ---- every sequence of deliveries ----

  predicate For(d: Delivery, laneId: string) { !d.Malformed? && d.laneId == laneId }

  predicate Timed(d: Delivery) { !d.Malformed? && d.ts.ms.Some? }

  /** Every capture time for this lane parses. */
  predicate AllTimed(ds: seq<Delivery>, laneId: string) {
    forall d | d in ds && For(d, laneId) :: Timed(d)
  }

  function Time(d: Delivery): int
    requires Timed(d)
  {
    d.ts.ms.value
  }

  /** Of the deliveries for a lane with a capture time, one of the latest. */
  predicate Latest(ds: seq<Delivery>, laneId: string, d: Delivery) {
    d in ds && For(d, laneId) && Timed(d) && forall e | e in ds && For(e, laneId) && Timed(e) :: Time(e) <= Time(d)
  }

  /** The pane is what the delivery carried: its text, its state and its capture time; a frame is always live. */
  predicate Carried(d: Delivery, pane: Pane) {
    && !d.Malformed? && pane.text == d.text && pane.state == d.state && pane.capturedAt == Some(d.ts)
    && (pane.live <==> WasLive(d))
  }

  predicate WasLive(d: Delivery) { d.LiveFrame? || (d.Snapshot? && d.live) }

  /** The pane is one of the latest captured, and live if any of those was. */
  ghost predicate Shows(ds: seq<Delivery>, laneId: string, pane: Pane) {
    && (exists d :: Latest(ds, laneId, d) && Carried(d, pane))
    && (pane.live <==> exists d :: Latest(ds, laneId, d) && WasLive(d))
  }

  /** What a lane's pane must be after some deliveries. */
  ghost predicate Settled(panes: Panes, ds: seq<Delivery>, laneId: string) {
    if laneId in panes then Shows(ds, laneId, panes[laneId]) else forall d | d in ds :: !For(d, laneId)
  }

  lemma {:induction false} InLonger(ds: seq<Delivery>, d: Delivery)
    ensures forall e :: e in ds + [d] <==> e in ds || e == d
  {
  }

  lemma {:induction false} DeliverOther(panes: Panes, ds: seq<Delivery>, d: Delivery, laneId: string)
    requires Settled(panes, ds, laneId) && !For(d, laneId)
    ensures Settled(Deliver(panes, d), ds + [d], laneId)
  {
    InLonger(ds, d);
    assert forall e :: Latest(ds + [d], laneId, e) <==> Latest(ds, laneId, e);
  }

  /** The first delivery for a lane is its pane. */
  lemma {:induction false} DeliverFirst(panes: Panes, ds: seq<Delivery>, d: Delivery)
    requires Timed(d) && d.laneId !in panes && Settled(panes, ds, d.laneId)
    ensures Settled(Deliver(panes, d), ds + [d], d.laneId)
  {
    InLonger(ds, d);
    assert forall e :: Latest(ds + [d], d.laneId, e) <==> e == d;
    assert Carried(d, Deliver(panes, d)[d.laneId]);
  }

  /** How a timed delivery changes which are the latest: not at all, to itself alone, or by itself. */
  lemma {:induction false} LatestLater(ds: seq<Delivery>, d: Delivery, w: Delivery)
    requires Timed(d) && Latest(ds, d.laneId, w)
    ensures forall e :: Latest(ds + [d], d.laneId, e) <==>
      if Time(d) < Time(w) then Latest(ds, d.laneId, e)
      else if Time(d) > Time(w) then e == d
      else Latest(ds, d.laneId, e) || e == d
  {
    InLonger(ds, d);
  }

  lemma {:induction false} DeliverLater(panes: Panes, ds: seq<Delivery>, d: Delivery)
    requires Timed(d) && d.laneId in panes && Shows(ds, d.laneId, panes[d.laneId])
    ensures Settled(Deliver(panes, d), ds + [d], d.laneId)
  {
    var w :| Latest(ds, d.laneId, w) && Carried(w, panes[d.laneId]);
    LatestLater(ds, d, w);
    var longer, next := ds + [d], Deliver(panes, d);
    if Time(d) < Time(w) {
      assert next == panes && Latest(longer, d.laneId, w);
    } else {
      assert Latest(longer, d.laneId, d);
      if next[d.laneId] == PaneOf(d) {
        assert Carried(d, next[d.laneId]);
        assert Time(d) == Time(w) && !WasLive(d) ==> !panes[d.laneId].live;
      } else {
        assert next == panes && Time(d) == Time(w) && !WasLive(d);
        assert Latest(longer, d.laneId, w) && Carried(w, next[d.laneId]);
      }
    }
  }

  /**
   * Whatever order frames and snapshots arrive in, a lane's pane is one of the latest captured for
   * it, and it is live if any of the latest was.
   */
  lemma {:induction false} PanesSettle(ds: seq<Delivery>, laneId: string)
    requires AllTimed(ds, laneId)
    ensures Settled(DeliverAll(ds), ds, laneId)
  {
    if ds != [] {
      var before, d := ds[..|ds| - 1], ds[|ds| - 1];
      assert ds == before + [d];
      InLonger(before, d);
      PanesSettle(before, laneId);
      if !For(d, laneId) {
        DeliverOther(DeliverAll(before), before, d, laneId);
      } else if laneId !in DeliverAll(before) {
        DeliverFirst(DeliverAll(before), before, d);
      } else {
        DeliverLater(DeliverAll(before), before, d);
      }
    }
  }

  // ---- when a capture time does not parse ----

  predicate SameLane(p: Panes, q: Panes, laneId: string) {
    (laneId in p <==> laneId in q) && (laneId in p ==> p[laneId] == q[laneId])
  }

  lemma {:induction false} DeliverLocal(p: Panes, q: Panes, d: Delivery, laneId: string)
    requires SameLane(p, q, laneId)
    ensures SameLane(Deliver(p, d), Deliver(q, d), laneId)
  {
  }

  /** A capture time that does not parse wipes the slate: the pane is that of the deliveries behind it, if any. */
  lemma {:induction false} PaneBehindUntimed(ds: seq<Delivery>, laneId: string, u: nat)
    requires u < |ds| && For(ds[u], laneId) && !Timed(ds[u]) && AllTimed(ds[u + 1..], laneId)
    ensures laneId in DeliverAll(ds)
    ensures DeliverAll(ds)[laneId] ==
      if laneId in DeliverAll(ds[u + 1..]) then DeliverAll(ds[u + 1..])[laneId] else PaneOf(ds[u])
  {
    var before, d := ds[..|ds| - 1], ds[|ds| - 1];
    if u < |before| {
      var rest := before[u + 1..];
      assert ds[u + 1..] == rest + [d];
      assert (rest + [d])[..|rest|] == rest;
      InLonger(rest, d);
      PaneBehindUntimed(before, laneId, u);
      if laneId in DeliverAll(rest) {
        DeliverLocal(DeliverAll(before), DeliverAll(rest), d, laneId);
      }
    } else {
      assert ds[u + 1..] == [];
    }
  }

  /** A delivery with the latest capture time of all, and no capture time behind it that fails to parse. */
  predicate LastingAt(ds: seq<Delivery>, laneId: string, i: nat) {
    i < |ds| && Latest(ds, laneId, ds[i]) && AllTimed(ds[i + 1..], laneId)
  }

  lemma {:induction false} LastUntimed(ds: seq<Delivery>, laneId: string) returns (u: nat)
    requires !AllTimed(ds, laneId)
    ensures u < |ds| && For(ds[u], laneId) && !Timed(ds[u]) && AllTimed(ds[u + 1..], laneId)
  {
    var n := |ds| - 1;
    if For(ds[n], laneId) && !Timed(ds[n]) {
      u := n;
    } else {
      assert ds == ds[..n] + [ds[n]];
      u := LastUntimed(ds[..n], laneId);
      assert ds[u + 1..] == ds[..n][u + 1..] + [ds[n]];
    }
  }

  /**
   * For every sequence of deliveries, whatever their timestamps: the pane is one of the latest captured exactly
   * when one of the latest arrives behind every timestamp that does not parse.
   */
  lemma {:induction false} PaneIsLatestExactly(ds: seq<Delivery>, laneId: string)
    ensures
      (laneId in DeliverAll(ds) && exists d :: Latest(ds, laneId, d) && Carried(d, DeliverAll(ds)[laneId]))
      <==> exists i: nat :: LastingAt(ds, laneId, i)
  {
    if AllTimed(ds, laneId) {
      PanesSettle(ds, laneId);
      forall i: nat | i < |ds| && Latest(ds, laneId, ds[i]) ensures LastingAt(ds, laneId, i) {
      }
    } else {
      var u := LastUntimed(ds, laneId);
      PaneBehindUntimed(ds, laneId, u);
      PanesSettle(ds[u + 1..], laneId);
      BehindUntimed(ds, laneId, u);
    }
  }

  lemma {:induction false} NothingUntimedBehind(ds: seq<Delivery>, laneId: string, i: nat, u: nat)
    requires i < |ds| && u < |ds| && AllTimed(ds[i + 1..], laneId) && For(ds[u], laneId) && !Timed(ds[u])
    ensures u <= i
  {
  }

  lemma {:induction false} BehindUntimed(ds: seq<Delivery>, laneId: string, u: nat)
    requires u < |ds| && For(ds[u], laneId) && !Timed(ds[u]) && AllTimed(ds[u + 1..], laneId)
    requires laneId in DeliverAll(ds) && Settled(DeliverAll(ds[u + 1..]), ds[u + 1..], laneId)
    requires DeliverAll(ds)[laneId] ==
      if laneId in DeliverAll(ds[u + 1..]) then DeliverAll(ds[u + 1..])[laneId] else PaneOf(ds[u])
    ensures (exists d :: Latest(ds, laneId, d) && Carried(d, DeliverAll(ds)[laneId]))
      <==> exists i: nat :: LastingAt(ds, laneId, i)
  {
    var rest, pane := ds[u + 1..], DeliverAll(ds)[laneId];
    if d :| Latest(ds, laneId, d) && Carried(d, pane) {
      var w :| Latest(rest, laneId, w) && Carried(w, pane);
      var k :| 0 <= k < |rest| && rest[k] == w;
      assert ds[u + 1 + k] == w && Time(w) == Time(d);
      assert forall e :: e in ds[u + 1 + k + 1..] ==> e in rest;
      assert LastingAt(ds, laneId, u + 1 + k);
    }
    if i: nat :| LastingAt(ds, laneId, i) {
      NothingUntimedBehind(ds, laneId, i, u);
      assert ds[i] == rest[i - u - 1];
      assert laneId in DeliverAll(rest);
      var w :| Latest(rest, laneId, w) && Carried(w, pane);
      assert w in ds && Time(w) >= Time(ds[i]);
      assert Latest(ds, laneId, w);
    }
  }

  /** A capture time identifies a delivery for its lane. */
  predicate TimesIdentify(ds: seq<Delivery>)
  {
    forall d, e | d in ds && e in ds && Timed(d) && Timed(e) && For(e, d.laneId) && Time(d) == Time(e) :: d == e
  }

  predicate Parseable(ds: seq<Delivery>) { forall d | d in ds && !d.Malformed? :: Timed(d) }

  /**
   * Convergence: deliveries with distinct capture times lead every client to the same panes, in
   * whatever order and however often each arrives.
   */
  lemma PanesConverge(ds: seq<Delivery>, es: seq<Delivery>)
    requires Parseable(ds) && TimesIdentify(ds)
    requires forall d :: d in ds <==> d in es
    ensures DeliverAll(ds) == DeliverAll(es)
  {
    var p, q := DeliverAll(ds), DeliverAll(es);
    forall laneId ensures laneId in p <==> laneId in q
                  ensures laneId in p && laneId in q ==> p[laneId] == q[laneId] {
      PanesSettle(ds, laneId);
      PanesSettle(es, laneId);
      if laneId in p && laneId in q {
        var v :| Latest(ds, laneId, v) && Carried(v, p[laneId]);
        var w :| Latest(es, laneId, w) && Carried(w, q[laneId]);
        assert Time(v) == Time(w);
      }
    }
  }

  /** A capture that failed cannot blank a screen that was live at that moment or later. */
  lemma OfflineNeverBlanks(panes: Panes, d: Delivery)
    requires d.Snapshot? && !d.live && d.ts.ms.Some? && d.laneId in panes && panes[d.laneId].live
    requires Stamped(panes[d.laneId].capturedAt) && panes[d.laneId].capturedAt.value.ms.Some?
    ensures Deliver(panes, d) == panes <==> d.ts.ms.value <= panes[d.laneId].capturedAt.value.ms.value
  {
    assert Deliver(panes, d) != panes ==> Deliver(panes, d)[d.laneId] == PaneOf(d);
    if d.ts.ms.value > panes[d.laneId].capturedAt.value.ms.value {
      assert Deliver(panes, d)[d.laneId].live != panes[d.laneId].live;
    }
  }
}
