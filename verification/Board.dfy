/** The board: columns and order derived from the task rows (apps/web/src/board.ts). */
module Board {
  import opened Order
  import opened FractionalIndex

  datatype Status = Now | Later | Done | Dropped

  datatype Task = Task(
    id: string,
    status: Status,
    createdAt: string,
    orderKey: Option<string>,
    blockedReason: Option<string>,
    phaseId: Option<string>)

  // ---- the order within a column ----

  function Compare(a: Task, b: Task): int {
    if Truthy(a.orderKey) && Truthy(b.orderKey) then
      if Less(a.orderKey.value, b.orderKey.value) then -1
      else if Less(b.orderKey.value, a.orderKey.value) then 1
      else if Less(a.id, b.id) then -1 else 1
    else if Truthy(a.orderKey) then -1
    else if Truthy(b.orderKey) then 1
    else if Less(a.createdAt, b.createdAt) then -1
    else if Less(b.createdAt, a.createdAt) then 1
    else if Less(a.id, b.id) then -1 else 1
  }

  predicate Before(a: Task, b: Task) { Compare(a, b) < 0 }

  predicate Keyed(t: Task) { Truthy(t.orderKey) }

  predicate Sorted(s: seq<Task>) {
    forall i, j | 0 <= i < j < |s| :: Before(s[i], s[j])
  }

  /** What decides between two tasks that agree on being keyed: first this, then the id. */
  function Rank(t: Task): string {
    if Keyed(t) then t.orderKey.value else t.createdAt
  }

  lemma BeforeMeans(a: Task, b: Task)
    ensures Before(a, b) <==>
      if Keyed(a) != Keyed(b) then Keyed(a)
      else Less(Rank(a), Rank(b)) || (Rank(a) == Rank(b) && Less(a.id, b.id))
  {
    LessTotal(Rank(a), Rank(b));
    LessIrreflexive(Rank(a));
    if Less(Rank(a), Rank(b)) {
      LessAsymmetric(Rank(a), Rank(b));
    }
  }

  /** Cards are strictly ordered, and any two with different ids are comparable. */
  lemma BeforeIsStrictOrder(a: Task, b: Task, c: Task)
    ensures Before(a, b) && Before(b, c) ==> Before(a, c)
    ensures Before(a, b) ==> !Before(b, a)
    ensures a.id != b.id ==> Before(a, b) || Before(b, a)
  {
    BeforeMeans(a, b);
    BeforeMeans(b, c);
    BeforeMeans(a, c);
    BeforeMeans(b, a);
    LessTotal(Rank(a), Rank(b));
    LessTotal(a.id, b.id);
    LessIrreflexive(Rank(a));
    if Less(Rank(a), Rank(b)) {
      LessAsymmetric(Rank(a), Rank(b));
      if Less(Rank(b), Rank(c)) {
        LessTransitive(Rank(a), Rank(b), Rank(c));
      }
    }
    if Less(a.id, b.id) {
      LessAsymmetric(a.id, b.id);
      if Less(b.id, c.id) {
        LessTransitive(a.id, b.id, c.id);
      }
    }
  }

  function Insert(t: Task, s: seq<Task>): seq<Task> {
    if s == [] then [t]
    else if Before(t, s[0]) then [t] + s
    else [s[0]] + Insert(t, s[1..])
  }

  /** What `sort(compareTasks)` returns; by SortedUnique every sorted permutation is this one. */
  function Sort(s: seq<Task>): seq<Task> {
    if s == [] then [] else Insert(s[0], Sort(s[1..]))
  }

  lemma {:induction false} InsertPermutes(t: Task, s: seq<Task>)
    ensures multiset(Insert(t, s)) == multiset(s) + multiset{t}
  {
    if s != [] {
      assert s == [s[0]] + s[1..];
      if !Before(t, s[0]) {
        InsertPermutes(t, s[1..]);
      }
    }
  }

  lemma {:induction false} SortPermutes(s: seq<Task>)
    ensures multiset(Sort(s)) == multiset(s)
  {
    if s != [] {
      SortPermutes(s[1..]);
      InsertPermutes(s[0], Sort(s[1..]));
      assert s == [s[0]] + s[1..];
    }
  }

  lemma SameElements(s: seq<Task>, t: seq<Task>)
    requires multiset(s) == multiset(t)
    ensures forall x :: x in s <==> x in t
  {
    forall x ensures x in s <==> x in t {
      assert x in s <==> x in multiset(s);
      assert x in t <==> x in multiset(t);
    }
  }

  lemma SortedCons(t: Task, s: seq<Task>)
    requires Sorted(s) && (s != [] ==> Before(t, s[0]))
    ensures Sorted([t] + s)
  {
    forall j | 0 <= j < |s| ensures Before(t, s[j]) {
      BeforeIsStrictOrder(t, s[0], s[j]);
    }
  }

  lemma {:induction false} InsertSorts(t: Task, s: seq<Task>)
    requires Sorted(s) && forall x | x in s :: x.id != t.id
    ensures Sorted(Insert(t, s))
  {
    if s == [] {
    } else if Before(t, s[0]) {
      SortedCons(t, s);
    } else {
      BeforeIsStrictOrder(t, s[0], t);
      InsertSorts(t, s[1..]);
      SortedCons(s[0], Insert(t, s[1..]));
    }
  }

  predicate DistinctIds(s: seq<Task>) {
    forall i, j | 0 <= i < j < |s| :: s[i].id != s[j].id
  }

  lemma {:induction false} SortSorts(s: seq<Task>)
    requires DistinctIds(s)
    ensures Sorted(Sort(s))
  {
    if s != [] {
      SortSorts(s[1..]);
      SortPermutes(s[1..]);
      SameElements(Sort(s[1..]), s[1..]);
      InsertSorts(s[0], Sort(s[1..]));
    }
  }

  /** A column has one sorted order only, so it does not matter which algorithm finds it. */
  lemma {:induction false} SortedUnique(s: seq<Task>, t: seq<Task>)
    requires Sorted(s) && Sorted(t) && multiset(s) == multiset(t)
    ensures s == t
  {
    if s == [] {
      assert |t| == |multiset(t)| == 0;
    } else {
      assert |t| == |multiset(t)| == |multiset(s)| == |s|;
      SameElements(s, t);
      assert s[0] in s && t[0] in t;
      BeforeIsStrictOrder(s[0], t[0], s[0]);
      assert s[0] == t[0];
      assert s == [s[0]] + s[1..] && t == [t[0]] + t[1..];
      assert multiset(s[1..]) == multiset(s) - multiset{s[0]};
      assert multiset(t[1..]) == multiset(t) - multiset{t[0]};
      SortedUnique(s[1..], t[1..]);
    }
  }

  // ---- dropping a card ----

  function Without(column: seq<Task>, id: string): (r: seq<Task>)
    ensures forall t :: t in r <==> t in column && t.id != id
  {
    if column == [] then []
    else (if column[0].id != id then [column[0]] else []) + Without(column[1..], id)
  }

  function KeyAt(s: seq<Task>, i: int): Option<string> {
    if 0 <= i < |s| then s[i].orderKey else None
  }

  function Clamp(index: int, n: nat): nat {
    if index < 0 then 0 else if index > n then n else index
  }

  function KeyForDrop(column: seq<Task>, index: int, movingId: Option<string>): string {
    var others := if Truthy(movingId) then Without(column, movingId.value) else column;
    var at := Clamp(index, |others|);
    KeyBetween(KeyAt(others, at - 1), KeyAt(others, at))
  }

  predicate LegalKeys(s: seq<Task>) {
    forall t | t in s && Keyed(t) :: Legal(t.orderKey.value)
  }

  function Placed(others: seq<Task>, card: Task, at: nat): seq<Task>
    requires at <= |others|
  {
    others[..at] + [card] + others[at..]
  }

  /**
   * The places a drop can reach: the top, or below a card that has a key of its own and does not
   * share it with the card underneath.
   */
  predicate Reachable(others: seq<Task>, at: nat)
    requires at <= |others|
  {
    at > 0 ==>
      && Keyed(others[at - 1])
      && (at < |others| ==> others[at].orderKey != others[at - 1].orderKey)
  }

  /** Inserting into a sorted column keeps it sorted exactly when the neighbours agree. */
  lemma PlacedSorted(others: seq<Task>, card: Task, at: nat)
    requires Sorted(others) && at <= |others|
    ensures Sorted(Placed(others, card, at)) <==>
      (at > 0 ==> Before(others[at - 1], card)) && (at < |others| ==> Before(card, others[at]))
  {
    var s := Placed(others, card, at);
    assert s[at] == card;
    assert at > 0 ==> s[at - 1] == others[at - 1];
    assert at < |others| ==> s[at + 1] == others[at];
    if (at > 0 ==> Before(others[at - 1], card)) && (at < |others| ==> Before(card, others[at])) {
      forall i, j | 0 <= i < j < |s| ensures Before(s[i], s[j]) {
        if i < at && j == at {
          BeforeIsStrictOrder(s[i], others[at - 1], card);
        } else if i == at {
          BeforeIsStrictOrder(card, others[at], s[j]);
        }
      }
    }
  }

  function KeyFor(others: seq<Task>, at: nat): string
    requires at <= |others|
  {
    KeyBetween(KeyAt(others, at - 1), KeyAt(others, at))
  }

  /** The key is strictly between those around the place; cards without a key count as the far end. */
  predicate Fits(others: seq<Task>, at: nat, key: string)
    requires at <= |others|
  {
    && (at > 0 ==> Keyed(others[at - 1]) && Less(others[at - 1].orderKey.value, key))
    && (at < |others| && Keyed(others[at]) ==> Less(key, others[at].orderKey.value))
  }

  /** The cards around a place have keys of digits only, of any length and with any last digit. */
  predicate DigitsAround(others: seq<Task>, at: nat)
    requires at <= |others|
  {
    && (at > 0 && Keyed(others[at - 1]) ==> IsKey(others[at - 1].orderKey.value))
    && (at < |others| && Keyed(others[at]) ==> IsKey(others[at].orderKey.value))
  }

  /** There is a key to be had: below the top only under a keyed card, and no blocked bounds. */
  predicate HasRoom(others: seq<Task>, at: nat)
    requires at <= |others|
  {
    && (at > 0 ==> Keyed(others[at - 1]))
    && (at < |others| && Keyed(others[at]) ==>
          !Blocked(if at > 0 then others[at - 1].orderKey.value else "", others[at].orderKey.value))
  }

  /** The key computed for a place fits there exactly when there is room. */
  lemma {:induction false} KeyFitsExact(others: seq<Task>, at: nat)
    requires Sorted(others) && at <= |others| && DigitsAround(others, at)
    ensures Fits(others, at, KeyFor(others, at)) <==> HasRoom(others, at)
    ensures KeyFor(others, at) != ""
  {
    var before, after := KeyAt(others, at - 1), KeyAt(others, at);
    KeyBetweenShape(before, after);
    if at < |others| && Keyed(others[at]) {
      if at > 0 {
        BeforeMeans(others[at - 1], others[at]);
      }
      KeyBetweenExact(before, after);
      SameIsBlocked(Normalize(before), Normalize(after));
    }
  }

  lemma SameIsBlocked(lo: string, hi: string)
    ensures lo == hi ==> Blocked(lo, hi)
    ensures Less(lo, hi) ==> Ordered(lo, hi)
  {
    LessIrreflexive(lo);
  }

  /** Among keys the board itself gives, room is a matter of reach: the cap plays no part. */
  lemma {:induction false} LegalRoom(others: seq<Task>, at: nat)
    requires LegalKeys(others) && at <= |others|
    ensures DigitsAround(others, at) && (HasRoom(others, at) <==> Reachable(others, at))
  {
    assert at > 0 ==> others[at - 1] in others;
    assert at < |others| ==> others[at] in others;
    if at < |others| && Keyed(others[at]) {
      var lo := if at > 0 && Keyed(others[at - 1]) then others[at - 1].orderKey.value else "";
      var hi := others[at].orderKey.value;
      SameIsBlocked(lo, hi);
      if lo != hi {
        LegalNeverBlocked(lo, hi);
      }
    }
  }

  /** A card with a fitting key belongs between its neighbours, and only then. */
  lemma FittingCard(others: seq<Task>, card: Task, at: nat)
    requires Sorted(others) && at <= |others| && Keyed(card)
    ensures Fits(others, at, card.orderKey.value) ==> Sorted(Placed(others, card, at))
    ensures Sorted(Placed(others, card, at)) && at > 0 ==> Keyed(others[at - 1])
    ensures Sorted(Placed(others, card, at)) && at < |others| && Keyed(others[at])
      ==> Less(card.orderKey.value, others[at].orderKey.value) || card.orderKey == others[at].orderKey
  {
    PlacedSorted(others, card, at);
    if at > 0 {
      BeforeMeans(others[at - 1], card);
    }
    if at < |others| {
      BeforeMeans(card, others[at]);
    }
  }

  lemma {:induction false} PlacedPermutes(others: seq<Task>, card: Task, at: nat)
    requires at <= |others|
    ensures multiset(Placed(others, card, at)) == multiset(Sort(others + [card]))
  {
    SortPermutes(others + [card]);
    assert others == others[..at] + others[at..];
  }

  /** The key is that of the card underneath, whose id comes later. */
  predicate Tied(others: seq<Task>, card: Task, at: nat)
    requires at <= |others| && Keyed(card)
  {
    && (at > 0 ==> Keyed(others[at - 1]) && Less(others[at - 1].orderKey.value, card.orderKey.value))
    && at < |others| && others[at].orderKey == card.orderKey && Less(card.id, others[at].id)
  }

  /** A key computed for a place is never the key of the card above it. */
  lemma {:induction false} KeyIsNotAbove(others: seq<Task>, at: nat)
    requires 0 < at <= |others|
    ensures others[at - 1].orderKey != Some(KeyFor(others, at))
  {
    KeyBetweenShape(KeyAt(others, at - 1), KeyAt(others, at));
    LessIrreflexive(KeyFor(others, at));
  }

  lemma {:induction false} PlacedExact(others: seq<Task>, card: Task, at: nat)
    requires Sorted(others) && at <= |others| && card.orderKey == Some(KeyFor(others, at)) && Keyed(card)
    ensures Sorted(Placed(others, card, at)) <==>
      Fits(others, at, card.orderKey.value) || Tied(others, card, at)
  {
    PlacedSorted(others, card, at);
    if at > 0 {
      BeforeMeans(others[at - 1], card);
      KeyIsNotAbove(others, at);
    }
    if at < |others| {
      BeforeMeans(card, others[at]);
      LessIrreflexive(others[at].id);
    }
  }

  /**
   * Dropping a card and sorting again puts it exactly where it was dropped, everything else in order, for rows
   * with any keys whatever, if and only if the computed key is strictly between the raw keys around it, or
   * ties with the card underneath and wins by its id.
   */
  lemma {:induction false} DropAnyExact(others: seq<Task>, card: Task, at: nat)
    requires Sorted(others) && DistinctIds(others) && at <= |others|
    requires forall t | t in others :: t.id != card.id
    requires card.orderKey == Some(KeyFor(others, at))
    ensures Keyed(card)
    ensures Sort(others + [card]) == Placed(others, card, at) <==>
      Fits(others, at, card.orderKey.value) || Tied(others, card, at)
  {
    KeyBetweenShape(KeyAt(others, at - 1), KeyAt(others, at));
    SortSorts(others + [card]);
    PlacedExact(others, card, at);
    PlacedPermutes(others, card, at);
    if Sorted(Placed(others, card, at)) {
      SortedUnique(Placed(others, card, at), Sort(others + [card]));
    }
  }

  /** Over keys of digits, of any length: it stands there exactly when there is room, or by such a tie. */
  lemma {:induction false} DropExact(others: seq<Task>, card: Task, at: nat)
    requires Sorted(others) && DistinctIds(others) && at <= |others| && DigitsAround(others, at)
    requires forall t | t in others :: t.id != card.id
    requires card.orderKey == Some(KeyFor(others, at))
    ensures Keyed(card)
    ensures Sort(others + [card]) == Placed(others, card, at) <==> HasRoom(others, at) || Tied(others, card, at)
  {
    DropAnyExact(others, card, at);
    KeyFitsExact(others, at);
  }

  /** Over keys the board itself gives: exactly when the place is reachable. */
  lemma {:induction false} DropLegalExact(others: seq<Task>, card: Task, at: nat)
    requires Sorted(others) && LegalKeys(others) && DistinctIds(others) && at <= |others|
    requires forall t | t in others :: t.id != card.id
    requires card.orderKey == Some(KeyFor(others, at))
    ensures Sort(others + [card]) == Placed(others, card, at) <==> Reachable(others, at)
  {
    LegalRoom(others, at);
    DropExact(others, card, at);
    LegalIsNotTied(others, card, at);
  }

  lemma {:induction false} LegalIsNotTied(others: seq<Task>, card: Task, at: nat)
    requires Sorted(others) && LegalKeys(others) && at <= |others|
    requires card.orderKey == Some(KeyFor(others, at)) && Keyed(card)
    ensures Tied(others, card, at) ==> Reachable(others, at)
  {
    LegalRoom(others, at);
    LessIrreflexive(card.orderKey.value);
  }

  // ---- a run of drags ----

  datatype Drag = Drag(card: Task, index: int)

  function Moved(column: seq<Task>, d: Drag): Task {
    d.card.(orderKey := Some(KeyForDrop(column, d.index, Some(d.card.id))))
  }

  /** The column after one drag, rebuilt from the rows. */
  function AfterDrag(column: seq<Task>, d: Drag): seq<Task> {
    Sort(Without(column, d.card.id) + [Moved(column, d)])
  }

  function AfterDrags(column: seq<Task>, ds: seq<Drag>): seq<Task>
    decreases |ds|
  {
    if ds == [] then column else AfterDrags(AfterDrag(column, ds[0]), ds[1..])
  }

  predicate Lands(column: seq<Task>, d: Drag) {
    var others := Without(column, d.card.id);
    AfterDrag(column, d) == Placed(others, Moved(column, d), Clamp(d.index, |others|))
  }

  /** The card is dropped inside the dragged part of the column, or right below it. */
  predicate WithinKeyed(column: seq<Task>, d: Drag) {
    var others := Without(column, d.card.id);
    var at := Clamp(d.index, |others|);
    at > 0 ==> Keyed(others[at - 1])
  }

  ghost predicate AllLand(column: seq<Task>, ds: seq<Drag>)
    decreases |ds|
  {
    ds == [] || (Lands(column, ds[0]) && AllLand(AfterDrag(column, ds[0]), ds[1..]))
  }

  ghost predicate AllWithinKeyed(column: seq<Task>, ds: seq<Drag>)
    decreases |ds|
  {
    ds == [] || (WithinKeyed(column, ds[0]) && AllWithinKeyed(AfterDrag(column, ds[0]), ds[1..]))
  }

  predicate DistinctKeys(s: seq<Task>) {
    forall i, j | 0 <= i < j < |s| :: Keyed(s[i]) && Keyed(s[j]) ==> s[i].orderKey != s[j].orderKey
  }

  predicate ShortKeys(s: seq<Task>, n: nat) {
    forall t | t in s && Keyed(t) :: WellShaped(t.orderKey.value, n)
  }

  /** Sorted, with distinct ids and distinct keys of at most `n` digits: `n` drags lead no further. */
  predicate Tidy(column: seq<Task>, n: nat) {
    Sorted(column) && DistinctIds(column) && DistinctKeys(column) && ShortKeys(column, n)
  }

  lemma {:induction false} WithoutTidy(column: seq<Task>, id: string, n: nat)
    requires Tidy(column, n)
    ensures Tidy(Without(column, id), n)
  {
    if column != [] {
      var head, tail := column[0], column[1..];
      TailTidy(column, n);
      WithoutTidy(tail, id, n);
      forall t | t in Without(tail, id) ensures Apart(head, t) {
        assert t in tail;
      }
      assert head in column;
      TidyCons(head, Without(tail, id), n);
    }
  }

  /** The first card comes before the other and shares neither id nor key with it. */
  predicate Apart(head: Task, t: Task) {
    Before(head, t) && head.id != t.id && (Keyed(head) && Keyed(t) ==> head.orderKey != t.orderKey)
  }

  lemma {:induction false} TailTidy(column: seq<Task>, n: nat)
    requires Tidy(column, n) && column != []
    ensures Tidy(column[1..], n) && forall t | t in column[1..] :: Apart(column[0], t)
  {
    forall t | t in column[1..] ensures t in column {
    }
  }

  lemma {:induction false} TidyCons(head: Task, rest: seq<Task>, n: nat)
    requires Tidy(rest, n) && (forall t | t in rest :: Apart(head, t))
    requires Keyed(head) ==> WellShaped(head.orderKey.value, n)
    ensures Tidy([head] + rest, n)
  {
    forall j | 0 <= j < |rest| ensures Apart(head, rest[j]) {
      assert rest[j] in rest;
    }
  }

  /** A drag of a tidy column lands where it was aimed exactly when it stays within the keyed part. */
  lemma {:induction false} DragStep(column: seq<Task>, d: Drag, n: nat)
    requires Tidy(column, n) && n <= WIRE_MAX_KEY && d.card.id != ""
    ensures Lands(column, d) <==> WithinKeyed(column, d)
    ensures Lands(column, d) ==> Tidy(AfterDrag(column, d), n + 1)
  {
    WithoutTidy(column, d.card.id, n);
    var others, card := Without(column, d.card.id), Moved(column, d);
    var at := Clamp(d.index, |others|);
    assert Sorted(others) && DistinctIds(others) && LegalKeys(others);
    DropLegalExact(others, card, at);
    assert Reachable(others, at) <==> WithinKeyed(column, d);
    if Lands(column, d) {
      LandedTidy(others, card, at, n);
    }
  }

  lemma {:induction false} LandedTidy(others: seq<Task>, card: Task, at: nat, n: nat)
    requires Tidy(others, n) && n <= WIRE_MAX_KEY && at <= |others| && Reachable(others, at)
    requires forall t | t in others :: t.id != card.id
    requires card.orderKey == Some(KeyFor(others, at))
    ensures Tidy(Placed(others, card, at), n + 1)
  {
    LegalRoom(others, at);
    KeyFitsExact(others, at);
    FittingCard(others, card, at);
    PlacedDistinct(others, card, at);
    KeyIsShort(others, at, n);
    PlacedShort(others, card, at, n);
  }

  lemma {:induction false} KeyIsShort(others: seq<Task>, at: nat, n: nat)
    requires ShortKeys(others, n) && at <= |others|
    ensures WellShaped(KeyFor(others, at), n + 1)
  {
    var before, after := KeyAt(others, at - 1), KeyAt(others, at);
    KeyBetweenShape(before, after);
    ShortAt(others, at - 1, n);
    ShortAt(others, at, n);
  }

  lemma {:induction false} ShortAt(others: seq<Task>, i: int, n: nat)
    requires ShortKeys(others, n)
    ensures |Normalize(KeyAt(others, i))| <= n
  {
    if 0 <= i < |others| {
      assert others[i] in others;
    }
  }

  lemma PlacedShort(others: seq<Task>, card: Task, at: nat, n: nat)
    requires ShortKeys(others, n) && at <= |others|
    requires Keyed(card) && WellShaped(card.orderKey.value, n + 1)
    ensures ShortKeys(Placed(others, card, at), n + 1)
  {
    forall t | t in Placed(others, card, at) && Keyed(t) ensures WellShaped(t.orderKey.value, n + 1) {
      assert t == card || t in others;
    }
  }

  lemma {:induction false} PlacedDistinct(others: seq<Task>, card: Task, at: nat)
    requires Sorted(others) && at <= |others| && Keyed(card) && Fits(others, at, card.orderKey.value)
    requires DistinctIds(others) && DistinctKeys(others) && forall t | t in others :: t.id != card.id
    ensures DistinctIds(Placed(others, card, at)) && DistinctKeys(Placed(others, card, at))
  {
    forall i | 0 <= i < |others|
      ensures others[i].id != card.id && (Keyed(others[i]) ==> others[i].orderKey != card.orderKey)
    {
      FittingKeyIsNew(others, card.orderKey.value, at, i);
    }
    PlacedApart(others, card, at);
  }

  /** A new card with an id and a key of its own. */
  lemma {:induction false} PlacedApart(others: seq<Task>, card: Task, at: nat)
    requires at <= |others| && DistinctIds(others) && DistinctKeys(others)
    requires forall i | 0 <= i < |others| ::
      others[i].id != card.id && (Keyed(others[i]) ==> others[i].orderKey != card.orderKey)
    ensures DistinctIds(Placed(others, card, at)) && DistinctKeys(Placed(others, card, at))
  {
    var s := Placed(others, card, at);
    assert forall i | 0 <= i < at :: s[i] == others[i];
    assert s[at] == card;
    assert forall i | at < i < |s| :: s[i] == others[i - 1];
  }

  lemma FittingKeyIsNew(others: seq<Task>, key: string, at: nat, i: nat)
    requires Sorted(others) && at <= |others| && i < |others| && Fits(others, at, key)
    ensures Keyed(others[i]) ==> others[i].orderKey.value != key
  {
    if Keyed(others[i]) {
      var other := others[i].orderKey.value;
      LessIrreflexive(key);
      if i < at {
        BeforeMeans(others[i], others[at - 1]);
        if i < at - 1 && other != others[at - 1].orderKey.value {
          LessTransitive(other, others[at - 1].orderKey.value, key);
        }
      } else {
        BeforeMeans(others[at], others[i]);
        if i > at && other != others[at].orderKey.value {
          LessTransitive(key, others[at].orderKey.value, other);
        }
      }
    }
  }

  predicate NeverDragged(column: seq<Task>) {
    Sorted(column) && DistinctIds(column) && forall t | t in column :: !Keyed(t)
  }

  lemma {:induction false} DragsFromTidy(column: seq<Task>, ds: seq<Drag>, n: nat)
    requires Tidy(column, n) && n + |ds| <= WIRE_MAX_KEY
    requires forall d | d in ds :: d.card.id != ""
    ensures AllLand(column, ds) <==> AllWithinKeyed(column, ds)
    ensures AllLand(column, ds) ==> Tidy(AfterDrags(column, ds), n + |ds|)
    decreases |ds|
  {
    if ds != [] {
      DragStep(column, ds[0], n);
      if Lands(column, ds[0]) {
        DragsFromTidy(AfterDrag(column, ds[0]), ds[1..], n + 1);
      }
    }
  }

  /**
   * Every run of at most 64 drags from a column nobody has dragged in yet: each card is shown
   * exactly where it was dropped if and only if no drop leaves the dragged part of the column, and
   * then every key is one the wire accepts.
   */
  lemma {:induction false} DragRunsLand(column: seq<Task>, ds: seq<Drag>)
    requires NeverDragged(column) && |ds| <= WIRE_MAX_KEY
    requires forall d | d in ds :: d.card.id != ""
    ensures AllLand(column, ds) <==> AllWithinKeyed(column, ds)
    ensures AllLand(column, ds) ==> Sorted(AfterDrags(column, ds)) && LegalKeys(AfterDrags(column, ds))
  {
    assert Tidy(column, 0);
    DragsFromTidy(column, ds, 0);
  }
}
