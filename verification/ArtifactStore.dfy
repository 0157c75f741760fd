/** The bounded, expiring store of artifact previews (packages/daemon/src/artifact-preview.ts). */
module ArtifactStore {
  import opened Order

  const MAX_ARTIFACT_BYTES := 262_144

  datatype Item = Item(id: string, html: string, ticket: string, expiresAt: int)

  /** UTF-8 bytes of a character. */
  function CharBytes(c: char): nat {
    if c as int < 0x80 then 1 else if c as int < 0x800 then 2 else if c as int < 0x1_0000 then 3 else 4
  }

  function ByteLength(s: string): nat {
    if s == "" then 0 else ByteLength(s[..|s| - 1]) + CharBytes(s[|s| - 1])
  }

  predicate Fits(html: string) { ByteLength(html) <= MAX_ARTIFACT_BYTES }

  function Prune(items: seq<Item>, now: int): seq<Item> {
    if items == [] then []
    else (if now > items[0].expiresAt then [] else [items[0]]) + Prune(items[1..], now)
  }

  /** Make room for one more, oldest first; a bound of zero still empties the store. */
  function Evict(items: seq<Item>, maxEntries: nat): seq<Item> {
    if |items| < maxEntries || items == [] then items else Evict(items[1..], maxEntries)
  }

  function Find(items: seq<Item>, id: string): (i: nat)
    ensures i <= |items| && (i < |items| ==> items[i].id == id)
    ensures forall k | 0 <= k < i :: items[k].id != id
  {
    if items == [] || items[0].id == id then 0 else 1 + Find(items[1..], id)
  }

  /** A map entry keeps its place when it is set again. */
  function SetItem(items: seq<Item>, item: Item): seq<Item> {
    var i := Find(items, item.id);
    if i < |items| then items[i := item] else items + [item]
  }

  function Put(items: seq<Item>, item: Item, now: int, maxEntries: nat): seq<Item> {
    if !Fits(item.html) then items else SetItem(Evict(Prune(items, now), maxEntries), item)
  }

  function Read(items: seq<Item>, id: string, ticket: string, now: int): Option<string> {
    var i := Find(items, id);
    if i == |items| || now > items[i].expiresAt || items[i].ticket != ticket then None else Some(items[i].html)
  }

  class ArtifactPreviewStore {
    var items: seq<Item>
    const ttlMs: int
    const maxEntries: nat

    constructor (ttlMs: int, maxEntries: nat)
      ensures items == [] && this.ttlMs == ttlMs && this.maxEntries == maxEntries
    {
      items := [];
      this.ttlMs := ttlMs;
      this.maxEntries := maxEntries;
    }

    /** `id` and `ticket` are what the generators return. False stands for the oversize error. */
    method DoPut(html: string, now: int, id: string, ticket: string) returns (ok: bool)
      modifies this
      ensures ok == Fits(html)
      ensures items == Put(old(items), Item(id, html, ticket, now + ttlMs), now, maxEntries)
    {
      if ByteLength(html) > MAX_ARTIFACT_BYTES {
        return false;
      }
      DoPrune(now);
      ghost var pruned := items;
      while |items| >= maxEntries && items != []
        invariant Evict(pruned, maxEntries) == Evict(items, maxEntries)
        decreases |items|
      {
        items := items[1..];
      }
      items := SetItem(items, Item(id, html, ticket, now + ttlMs));
      ok := true;
    }

    method DoRead(id: string, ticket: string, now: int) returns (html: Option<string>)
      ensures html == Read(items, id, ticket, now)
    {
      var i := Find(items, id);
      if i == |items| || now > items[i].expiresAt {
        return None;
      }
      if items[i].ticket != ticket {
        return None;
      }
      return Some(items[i].html);
    }

    method Size(now: int) returns (n: nat)
      modifies this
      ensures items == Prune(old(items), now) && n == |items|
    {
      DoPrune(now);
      n := |items|;
    }

    method DoPrune(now: int)
      modifies this
      ensures items == Prune(old(items), now)
    {
      var kept := [];
      for i := 0 to |items|
        invariant items == old(items)
        invariant Prune(items, now) == kept + Prune(items[i..], now)
      {
        assert items[i..][1..] == items[i + 1..];
        if !(now > items[i].expiresAt) {
          kept := kept + [items[i]];
        }
      }
      items := kept;
    }
  }

  // ---- every run ----

  datatype Op = PutOp(html: string, id: string, ticket: string, now: int) | SizeOp(now: int) | ReadOp(now: int)

  /** The store after a run, together with all the previews ever accepted, oldest first. */
  datatype Run = Run(items: seq<Item>, puts: seq<Item>, clock: int)

  function Step(r: Run, op: Op, ttlMs: int, maxEntries: nat): Run {
    match op
    case PutOp(html, id, ticket, now) =>
      var item := Item(id, html, ticket, now + ttlMs);
      Run(Put(r.items, item, now, maxEntries), if Fits(html) then r.puts + [item] else r.puts, now)
    case SizeOp(now) => Run(Prune(r.items, now), r.puts, now)
    case ReadOp(now) => r.(clock := now)
  }

  /** The clock does not run backwards and every id is new. */
  predicate Regular(r: Run, op: Op) {
    && op.now >= r.clock
    && (op.PutOp? ==> forall i | 0 <= i < |r.puts| :: r.puts[i].id != op.id)
  }

  function After(ops: seq<Op>, start: int, ttlMs: int, maxEntries: nat): Run {
    if ops == [] then Run([], [], start)
    else Step(After(ops[..|ops| - 1], start, ttlMs, maxEntries), ops[|ops| - 1], ttlMs, maxEntries)
  }

  ghost predicate RegularRun(ops: seq<Op>, start: int, ttlMs: int, maxEntries: nat) {
    ops == [] ||
    (RegularRun(ops[..|ops| - 1], start, ttlMs, maxEntries)
     && Regular(After(ops[..|ops| - 1], start, ttlMs, maxEntries), ops[|ops| - 1]))
  }

  function Cap(maxEntries: nat): nat { if maxEntries == 0 then 1 else maxEntries }

  predicate Ordered(puts: seq<Item>, latest: int) {
    && (forall i | 0 <= i < |puts| :: puts[i].expiresAt <= latest)
    && (forall i, j | 0 <= i < j < |puts| :: puts[i].expiresAt <= puts[j].expiresAt && puts[i].id != puts[j].id)
  }

  /** The store holds the end of the history: what was left out is expired, or beyond the bound. */
  predicate HoldsEnd(r: Run, k: nat, maxEntries: nat) {
    && k <= |r.puts| && r.items == r.puts[k..] && |r.items| <= Cap(maxEntries)
    && forall i | 0 <= i < k :: r.clock > r.puts[i].expiresAt || i + Cap(maxEntries) < |r.puts|
  }

  ghost predicate Inv(r: Run, ttlMs: int, maxEntries: nat) {
    Ordered(r.puts, r.clock + ttlMs) && exists k: nat :: HoldsEnd(r, k, maxEntries)
  }

  /** Pruning an ordered store cuts it from the front. */
  lemma {:induction false} PruneCuts(items: seq<Item>, now: int) returns (k: nat)
    requires forall i, j | 0 <= i < j < |items| :: items[i].expiresAt <= items[j].expiresAt
    ensures k <= |items| && Prune(items, now) == items[k..]
    ensures forall i | 0 <= i < |items| :: i < k <==> now > items[i].expiresAt
  {
    if items == [] {
      k := 0;
    } else {
      var rest := PruneCuts(items[1..], now);
      if now > items[0].expiresAt {
        k := rest + 1;
        assert items[k..] == items[1..][rest..];
      } else {
        k := 0;
        assert rest == 0;
        assert [items[0]] + items[1..] == items;
      }
      forall i | 0 <= i < |items| ensures i < k <==> now > items[i].expiresAt {
        assert i > 0 ==> items[i] == items[1..][i - 1];
      }
    }
  }

  lemma {:induction false} EvictCuts(items: seq<Item>, maxEntries: nat)
    ensures var k := |items| - Least(|items|, Cap(maxEntries) - 1);
      Evict(items, maxEntries) == items[k..]
    decreases |items|
  {
    if !(|items| < maxEntries || items == []) {
      EvictCuts(items[1..], maxEntries);
    }
  }

  function Least(a: int, b: int): int { if a < b then a else b }

  lemma PruneStep(r: Run, now: int, ttlMs: int, maxEntries: nat)
    requires Inv(r, ttlMs, maxEntries) && now >= r.clock
    ensures Inv(Run(Prune(r.items, now), r.puts, now), ttlMs, maxEntries)
  {
    var k: nat :| HoldsEnd(r, k, maxEntries);
    var cut := PruneCuts(r.items, now);
    assert r.puts[k..][cut..] == r.puts[k + cut..];
    assert forall i | 0 <= i < |r.items| :: r.items[i] == r.puts[k + i];
    assert HoldsEnd(Run(Prune(r.items, now), r.puts, now), k + cut, maxEntries);
  }

  /** After eviction there is room for one more, and only what the next put pushes out is gone. */
  lemma EvictStep(r: Run, k: nat, maxEntries: nat) returns (cut: nat)
    requires HoldsEnd(r, k, maxEntries)
    ensures cut <= |r.puts| && Evict(r.items, maxEntries) == r.puts[cut..] && |r.puts| - cut < Cap(maxEntries)
    ensures forall i | 0 <= i < cut :: r.clock > r.puts[i].expiresAt || i + Cap(maxEntries) <= |r.puts|
  {
    EvictCuts(r.items, maxEntries);
    var dropped := |r.items| - Least(|r.items|, Cap(maxEntries) - 1);
    cut := k + dropped;
    assert r.puts[k..][dropped..] == r.puts[cut..];
  }

  lemma FindFresh(items: seq<Item>, id: string)
    requires forall i | 0 <= i < |items| :: items[i].id != id
    ensures Find(items, id) == |items|
  {
  }

  lemma PutStep(r: Run, item: Item, now: int, ttlMs: int, maxEntries: nat)
    requires Inv(r, ttlMs, maxEntries) && r.clock == now && item.expiresAt == now + ttlMs
    requires forall i | 0 <= i < |r.puts| :: r.puts[i].id != item.id
    ensures Inv(Run(SetItem(Evict(r.items, maxEntries), item), r.puts + [item], now), ttlMs, maxEntries)
  {
    var k: nat :| HoldsEnd(r, k, maxEntries);
    var cut := EvictStep(r, k, maxEntries);
    var kept, next := r.puts[cut..], r.puts + [item];
    FindFresh(kept, item.id);
    OrderedSnoc(r.puts, item, now + ttlMs);
    assert kept + [item] == next[cut..];
    assert HoldsEnd(Run(kept + [item], next, now), cut, maxEntries);
  }

  lemma OrderedSnoc(puts: seq<Item>, item: Item, latest: int)
    requires Ordered(puts, latest) && item.expiresAt == latest && forall i | 0 <= i < |puts| :: puts[i].id != item.id
    ensures Ordered(puts + [item], latest)
  {
  }

  lemma {:induction false} RunsKeepInv(ops: seq<Op>, start: int, ttlMs: int, maxEntries: nat)
    requires RegularRun(ops, start, ttlMs, maxEntries)
    ensures Inv(After(ops, start, ttlMs, maxEntries), ttlMs, maxEntries)
  {
    if ops == [] {
      assert HoldsEnd(Run([], [], start), 0, maxEntries);
    } else {
      RunsKeepInv(ops[..|ops| - 1], start, ttlMs, maxEntries);
      StepKeepsInv(After(ops[..|ops| - 1], start, ttlMs, maxEntries), ops[|ops| - 1], ttlMs, maxEntries);
    }
  }

  lemma StepKeepsInv(r: Run, op: Op, ttlMs: int, maxEntries: nat)
    requires Inv(r, ttlMs, maxEntries) && Regular(r, op)
    ensures Inv(Step(r, op, ttlMs, maxEntries), ttlMs, maxEntries)
  {
    if op.ReadOp? || (op.PutOp? && !Fits(op.html)) {
      WaitStep(r, op.now, ttlMs, maxEntries);
    } else {
      PruneStep(r, op.now, ttlMs, maxEntries);
      if op.PutOp? {
        PutAfterPrune(r, Item(op.id, op.html, op.ticket, op.now + ttlMs), op.now, ttlMs, maxEntries);
      }
    }
  }

  lemma PutAfterPrune(r: Run, item: Item, now: int, ttlMs: int, maxEntries: nat)
    requires Inv(Run(Prune(r.items, now), r.puts, now), ttlMs, maxEntries)
    requires Fits(item.html) && item.expiresAt == now + ttlMs
    requires forall i | 0 <= i < |r.puts| :: r.puts[i].id != item.id
    ensures Inv(Run(Put(r.items, item, now, maxEntries), r.puts + [item], now), ttlMs, maxEntries)
  {
    PutStep(Run(Prune(r.items, now), r.puts, now), item, now, ttlMs, maxEntries);
  }

  lemma WaitStep(r: Run, now: int, ttlMs: int, maxEntries: nat)
    requires Inv(r, ttlMs, maxEntries) && now >= r.clock
    ensures Inv(r.(clock := now), ttlMs, maxEntries)
  {
    var k: nat :| HoldsEnd(r, k, maxEntries);
    assert HoldsEnd(r.(clock := now), k, maxEntries);
  }

  /** The preview of a put, as a reader may ask for it. */
  predicate Answers(puts: seq<Item>, j: nat, id: string, ticket: string, html: string, now: int, maxEntries: nat) {
    && j < |puts| <= j + Cap(maxEntries)
    && puts[j].id == id && puts[j].ticket == ticket && puts[j].html == html && now <= puts[j].expiresAt
  }

  /**
   * The store, exactly, over every run with fresh ids and a clock that does not run backwards: a
   * read gets the html of a put if and only if that put is among the last `maxEntries`, unexpired,
   * and the ticket is its own; and the store is never larger than the bound.
   */
  lemma ReadExactly(
    ops: seq<Op>, start: int, ttlMs: int, maxEntries: nat, id: string, ticket: string, html: string, now: int)
    requires RegularRun(ops, start, ttlMs, maxEntries) && now >= After(ops, start, ttlMs, maxEntries).clock
    ensures var r := After(ops, start, ttlMs, maxEntries);
      && (Read(r.items, id, ticket, now) == Some(html)
          <==> exists j: nat :: Answers(r.puts, j, id, ticket, html, now, maxEntries))
      && |r.items| <= Cap(maxEntries)
  {
    RunsKeepInv(ops, start, ttlMs, maxEntries);
    var r := After(ops, start, ttlMs, maxEntries);
    var k: nat :| HoldsEnd(r, k, maxEntries);
    if Read(r.items, id, ticket, now) == Some(html) {
      ReadAnswers(r, k, ttlMs, maxEntries, id, ticket, html, now);
    }
    if j: nat :| Answers(r.puts, j, id, ticket, html, now, maxEntries) {
      AnswerIsRead(r, k, ttlMs, maxEntries, id, ticket, html, now, j);
    }
  }

  lemma ReadAnswers(r: Run, k: nat, ttlMs: int, maxEntries: nat, id: string, ticket: string, html: string, now: int)
    requires HoldsEnd(r, k, maxEntries) && Read(r.items, id, ticket, now) == Some(html)
    ensures Answers(r.puts, k + Find(r.items, id), id, ticket, html, now, maxEntries)
  {
  }

  lemma AnswerIsRead(
    r: Run, k: nat, ttlMs: int, maxEntries: nat, id: string, ticket: string, html: string, now: int, j: nat)
    requires Ordered(r.puts, r.clock + ttlMs) && HoldsEnd(r, k, maxEntries) && now >= r.clock
    requires Answers(r.puts, j, id, ticket, html, now, maxEntries)
    ensures Read(r.items, id, ticket, now) == Some(html)
  {
    assert j >= k && r.items[j - k] == r.puts[j];
    var i := Find(r.items, id);
    assert i <= j - k;
    assert r.items[i] == r.puts[k + i];
  }
}
