/**
 * The fractional index behind a drag: a key strictly between two neighbours, so that a move
 * touches one row (apps/web/src/board.ts:139-243).
 */
module FractionalIndex {
  import opened Order

  const DIGIT_COUNT := 26
  const MAX_DEPTH := 64
  /** The longest order key the RPC layer accepts. */
  const WIRE_MAX_KEY := 64
  /** The middle digit, `char(floor(INF / 2))`. */
  const MIDDLE := "n"

  predicate IsDigit(c: char) { 'a' <= c <= 'z' }

  predicate IsKey(s: string) {
    forall i | 0 <= i < |s| :: IsDigit(s[i])
  }

  function Digit(c: char): int
    requires IsDigit(c)
  {
    c as int - 'a' as int
  }

  function Char(d: int): (c: char)
    requires 0 <= d < DIGIT_COUNT
    ensures IsDigit(c) && Digit(c) == d
  {
    ('a' as int + d) as char
  }

  /** A key nothing can be inserted before. */
  predicate IsTerminal(key: string) {
    key != "" && key[|key| - 1] == 'a'
  }

  /** A key as the board gives it to a row: digits only, not terminal, and short enough for the wire. */
  predicate Legal(key: string) {
    key != "" && |key| <= WIRE_MAX_KEY && IsKey(key) && !IsTerminal(key)
  }

  // ---- normalize ----

  function KeepDigits(s: string): (r: string)
    ensures IsKey(r) && |r| <= |s|
    ensures IsKey(s) ==> r == s
  {
    if s == "" then "" else (if IsDigit(s[0]) then [s[0]] else "") + KeepDigits(s[1..])
  }

  function Normalize(key: Option<string>): (r: string)
    ensures IsKey(r)
    ensures key.Some? && IsKey(key.value) ==> r == key.value
  {
    if Truthy(key) then KeepDigits(key.value) else ""
  }

  lemma {:induction false} KeepDigitsSnoc(s: string, c: char)
    ensures KeepDigits(s + [c]) == KeepDigits(s) + (if IsDigit(c) then [c] else "")
  {
    if s == "" {
      assert s + [c] == [c];
    } else {
      var rest, kept := s[1..], if IsDigit(c) then [c] else "";
      KeepDigitsSnoc(rest, c);
      assert (s + [c])[1..] == rest + [c];
      assert (if IsDigit(s[0]) then [s[0]] else "") + (KeepDigits(rest) + kept) == KeepDigits(s) + kept;
    }
  }

  method NormalizeKey(key: Option<string>) returns (out: string)
    ensures out == Normalize(key)
  {
    out := "";
    if !Truthy(key) {
      return;
    }
    var s := key.value;
    for i := 0 to |s|
      invariant out == KeepDigits(s[..i])
    {
      assert s[..i + 1] == s[..i] + [s[i]];
      KeepDigitsSnoc(s[..i], s[i]);
      if IsDigit(s[i]) {
        out := out + [s[i]];
      }
    }
    assert s[..|s|] == s;
  }

  // ---- midpoint ----

  /** How many leading characters of `hi` are also those of `lo`. */
  function CommonPrefix(lo: string, hi: string): (n: nat)
    ensures n <= |lo| && n <= |hi| && lo[..n] == hi[..n]
    ensures n < |lo| && n < |hi| ==> lo[n] != hi[n]
  {
    if lo == "" || hi == "" || lo[0] != hi[0] then 0
    else
      var n := 1 + CommonPrefix(lo[1..], hi[1..]);
      assert lo[..n] == [lo[0]] + lo[1..][..n - 1] && hi[..n] == [hi[0]] + hi[1..][..n - 1];
      n
  }

  function LowDigit(lo: string): int
    requires IsKey(lo)
  {
    if lo == "" then -1 else Digit(lo[0])
  }

  function HighDigit(hi: string): int
    requires IsKey(hi)
  {
    if hi == "" then DIGIT_COUNT else Digit(hi[0])
  }

  /** Between digits with room for a third one. The sum is never negative here, so `/` is a floor. */
  function MiddleDigit(dLo: int, dHi: int): string
    requires -1 <= dLo && dLo + 1 < dHi <= DIGIT_COUNT
  {
    var mid := (dLo + dHi) / 2;
    if mid == 0 then "a" + MIDDLE else [Char(mid)]
  }

  function Midpoint(lo: string, hi: string, depth: nat): string
    requires IsKey(lo) && IsKey(hi)
    decreases MAX_DEPTH + 1 - depth
  {
    if depth > MAX_DEPTH then lo + MIDDLE
    else
      var n := CommonPrefix(lo, hi);
      if n > 0 then hi[..n] + Midpoint(lo[n..], hi[n..], depth + 1)
      else if lo == "" && hi != "" && hi[0] == 'a' then "a" + Midpoint("", hi[1..], depth + 1)
      else if HighDigit(hi) - LowDigit(lo) > 1 then MiddleDigit(LowDigit(lo), HighDigit(hi))
      else if lo != "" then [lo[0]] + Midpoint(lo[1..], "", depth + 1)
      else MIDDLE
  }

  method ComputeMidpoint(lo: string, hi: string, depth: nat) returns (key: string)
    requires IsKey(lo) && IsKey(hi)
    ensures key == Midpoint(lo, hi, depth)
    decreases MAX_DEPTH + 1 - depth
  {
    if depth > MAX_DEPTH {
      return lo + MIDDLE;
    }
    if hi != "" {
      var n := 0;
      while n < |hi| && n < |lo| && lo[n] == hi[n]
        invariant n <= |hi| && n <= |lo|
        invariant CommonPrefix(lo, hi) == n + CommonPrefix(lo[n..], hi[n..])
      {
        n := n + 1;
      }
      if n > 0 {
        var rest := ComputeMidpoint(lo[n..], hi[n..], depth + 1);
        return hi[..n] + rest;
      }
    }
    if lo == "" && hi != "" && hi[0] == 'a' {
      var rest := ComputeMidpoint("", hi[1..], depth + 1);
      return "a" + rest;
    }
    var dLo, dHi := LowDigit(lo), HighDigit(hi);
    if dHi - dLo > 1 {
      var mid := (dLo + dHi) / 2;
      if mid == 0 {
        return "a" + MIDDLE;
      }
      return [Char(mid)];
    }
    if lo != "" {
      var rest := ComputeMidpoint(lo[1..], "", depth + 1);
      return [lo[0]] + rest;
    }
    return MIDDLE;
  }

  /** Is there, on paper, anything between the bounds? An absent bound is "". */
  predicate Ordered(lo: string, hi: string) {
    lo == "" || hi == "" || Less(lo, hi)
  }

  lemma OrderedAfterStrip(lo: string, hi: string, n: nat)
    requires Ordered(lo, hi) && n == CommonPrefix(lo, hi) > 0
    ensures Less(lo[n..], hi[n..])
  {
    assert lo == lo[..n] + lo[n..] && hi == lo[..n] + hi[n..];
    LessAfterPrefix(lo[..n], lo[n..], hi[n..]);
  }

  /** What a midpoint is whatever its bounds: a key, not terminal, of bounded length. */
  predicate WellShaped(key: string, bound: nat) {
    key != "" && IsKey(key) && !IsTerminal(key) && |key| <= bound
  }

  lemma ShapeAfterPrefix(p: string, key: string, bound: nat)
    requires IsKey(p) && WellShaped(key, bound)
    ensures WellShaped(p + key, |p| + bound)
  {
    assert (p + key)[|p + key| - 1] == key[|key| - 1];
  }

  function Longer(lo: string, hi: string): nat { if |lo| > |hi| then |lo| else |hi| }

  /** A midpoint is a non-empty key, never terminal, and at most one digit longer than its bounds. */
  lemma {:induction false} MidpointShape(lo: string, hi: string, depth: nat)
    requires IsKey(lo) && IsKey(hi)
    ensures WellShaped(Midpoint(lo, hi, depth), Longer(lo, hi) + 1)
    decreases MAX_DEPTH + 1 - depth
  {
    if depth > MAX_DEPTH {
      ShapeAfterPrefix(lo, MIDDLE, 1);
    } else if CommonPrefix(lo, hi) > 0 {
      var n := CommonPrefix(lo, hi);
      var l, h := lo[n..], hi[n..];
      MidpointShape(l, h, depth + 1);
      ShapeAfterPrefix(hi[..n], Midpoint(l, h, depth + 1), Longer(l, h) + 1);
      assert Midpoint(lo, hi, depth) == hi[..n] + Midpoint(l, h, depth + 1);
    } else if lo == "" && hi != "" && hi[0] == 'a' {
      var rest := hi[1..];
      MidpointShape("", rest, depth + 1);
      ShapeAfterPrefix("a", Midpoint("", rest, depth + 1), |hi|);
    } else if HighDigit(hi) - LowDigit(lo) > 1 {
    } else if lo != "" {
      var rest := lo[1..];
      MidpointShape(rest, "", depth + 1);
      ShapeAfterPrefix([lo[0]], Midpoint(rest, "", depth + 1), |lo|);
    }
  }

  /** A midpoint lies above its lower bound, whatever the depth. */
  lemma {:induction false} MidpointAbove(lo: string, hi: string, depth: nat)
    requires IsKey(lo) && IsKey(hi) && Ordered(lo, hi)
    ensures Less(lo, Midpoint(lo, hi, depth))
    decreases MAX_DEPTH + 1 - depth
  {
    MidpointShape(lo, hi, depth);
    if lo == "" {
    } else if depth > MAX_DEPTH {
      LessWhenExtended(lo, MIDDLE);
    } else if CommonPrefix(lo, hi) > 0 {
      var n := CommonPrefix(lo, hi);
      var l, h := lo[n..], hi[n..];
      var key := Midpoint(l, h, depth + 1);
      OrderedAfterStrip(lo, hi, n);
      MidpointAbove(l, h, depth + 1);
      LessAfterPrefix(lo[..n], l, key);
      assert lo == lo[..n] + l && Midpoint(lo, hi, depth) == lo[..n] + key;
    } else if HighDigit(hi) - LowDigit(lo) > 1 {
    } else {
      MidpointAbove(lo[1..], "", depth + 1);
    }
  }

  // ---- the upper bound ----

  predicate AllZero(s: string) {
    forall i | 0 <= i < |s| :: s[i] == 'a'
  }

  /**
   * What is left of `hi` after an exhausted `lo`, entered at `depth`, has no reachable room: it is
   * all zero digits, or has so many that the depth cap fires while the rest is at most "n".
   */
  predicate NoRoomBelow(rest: string, depth: nat)
    requires depth <= MAX_DEPTH + 1
  {
    var left := MAX_DEPTH + 1 - depth;
    || AllZero(rest)
    || (left <= |rest| && AllZero(rest[..left]) && !Less(MIDDLE, rest[left..]))
  }

  /** The bounds between which a key cannot be found. A non-empty `lo` costs one level to strip. */
  predicate Blocked(lo: string, hi: string) {
    lo <= hi && NoRoomBelow(hi[|lo|..], if lo == "" then 0 else 1)
  }

  lemma AllZeroCons(s: string)
    ensures AllZero("a" + s) <==> AllZero(s)
  {
    assert ("a" + s)[1..] == s;
  }

  /** Below a bound, from the start of the list: exact at every depth. */
  lemma {:induction false} PrependExact(hi: string, depth: nat)
    requires IsKey(hi) && hi != "" && depth <= MAX_DEPTH + 1
    ensures Less(Midpoint("", hi, depth), hi) <==> !NoRoomBelow(hi, depth)
    decreases MAX_DEPTH + 1 - depth
  {
    if depth > MAX_DEPTH {
      assert hi[0..] == hi && "" + MIDDLE == MIDDLE;
    } else if hi[0] == 'a' {
      var rest := hi[1..];
      var key := Midpoint("", rest, depth + 1);
      assert Midpoint("", hi, depth) == "a" + key && hi == "a" + rest;
      LessAfterPrefix("a", key, rest);
      if rest != "" {
        PrependExact(rest, depth + 1);
        RoomBelowCons(rest, depth);
      }
    } else {
      var left := MAX_DEPTH + 1 - depth;
      assert !AllZero(hi);
      assert left <= |hi| ==> hi[..left][0] != 'a';
    }
  }

  /** A zero digit in front costs one level of depth. */
  lemma {:induction false} RoomBelowCons(rest: string, depth: nat)
    requires depth <= MAX_DEPTH && rest != ""
    ensures NoRoomBelow("a" + rest, depth) <==> NoRoomBelow(rest, depth + 1)
  {
    var hi, left := "a" + rest, MAX_DEPTH + 1 - depth;
    AllZeroCons(rest);
    if left <= |hi| {
      assert hi[left..] == rest[left - 1..];
      assert hi[..left] == "a" + rest[..left - 1];
      AllZeroCons(rest[..left - 1]);
    }
  }

  /** Between two ordered bounds the key is below the upper one exactly when the bounds are not blocked. */
  lemma {:induction false} MidpointBelowExact(lo: string, hi: string)
    requires IsKey(lo) && IsKey(hi) && hi != "" && Ordered(lo, hi)
    ensures Less(Midpoint(lo, hi, 0), hi) <==> !Blocked(lo, hi)
  {
    if lo == "" {
      PrependExact(hi, 0);
      assert hi[0..] == hi;
    } else if CommonPrefix(lo, hi) > 0 {
      StrippedBelowExact(lo, hi, CommonPrefix(lo, hi));
    } else {
      assert lo[0] != hi[0];
    }
  }

  lemma {:induction false} StrippedBelowExact(lo: string, hi: string, n: nat)
    requires IsKey(lo) && IsKey(hi) && lo != "" && Less(lo, hi) && n == CommonPrefix(lo, hi) > 0
    ensures Less(Midpoint(lo, hi, 0), hi) <==> !Blocked(lo, hi)
  {
    OrderedAfterStrip(lo, hi, n);
    var l, h := lo[n..], hi[n..];
    var key := Midpoint(l, h, 1);
    assert Midpoint(lo, hi, 0) == hi[..n] + key;
    LessAfterPrefix(hi[..n], key, h);
    assert hi == hi[..n] + h;
    if l == "" {
      assert lo == lo[..n] == hi[..n];
      PrependExact(h, 1);
    } else {
      assert l[0] != h[0] && lo[n] != hi[n];
      assert CommonPrefix(l, h) == 0;
      assert Less(key, h);
    }
  }

  /** Keys the board gives are never blocked: the depth cap is out of their reach. */
  lemma LegalNeverBlocked(lo: string, hi: string)
    requires IsKey(hi) && hi != "" && !IsTerminal(hi) && |hi| <= MAX_DEPTH + 1 && lo != hi
    ensures !Blocked(lo, hi)
  {
    if lo <= hi {
      var rest := hi[|lo|..];
      assert rest != "" && rest[|rest| - 1] == hi[|hi| - 1];
      var left := MAX_DEPTH + 1 - (if lo == "" then 0 else 1);
      if left <= |rest| {
        assert left == |rest|;
        assert rest[..left][|rest| - 1] != 'a';
      }
    }
  }

  // ---- keyBetween ----

  function KeyBetween(before: Option<string>, after: Option<string>): string {
    var lo, hi := Normalize(before), Normalize(after);
    if !Ordered(lo, hi) then Midpoint(lo, "", 0)
    else
      var key := Midpoint(lo, hi, 0);
      if lo != "" && !Less(lo, key) then lo + MIDDLE else key
  }

  method ComputeKeyBetween(before: Option<string>, after: Option<string>) returns (key: string)
    ensures key == KeyBetween(before, after)
  {
    var lo := NormalizeKey(before);
    var hi := NormalizeKey(after);
    if lo != "" && hi != "" && !Less(lo, hi) {
      key := ComputeMidpoint(lo, "", 0);
      return;
    }
    key := ComputeMidpoint(lo, hi, 0);
    if lo != "" && !Less(lo, key) {
      return lo + MIDDLE;
    }
  }

  /** For every pair of bounds: the key is well shaped, one digit longer at most, and above the lower. */
  lemma {:induction false} KeyBetweenShape(before: Option<string>, after: Option<string>)
    ensures var lo, hi, key := Normalize(before), Normalize(after), KeyBetween(before, after);
      WellShaped(key, Longer(lo, hi) + 1) && Less(lo, key)
  {
    var lo, hi := Normalize(before), Normalize(after);
    var bound := if Ordered(lo, hi) then hi else "";
    MidpointShape(lo, bound, 0);
    MidpointAbove(lo, bound, 0);
  }

  /** The fallback behind the midpoint is never taken: it decides nothing for any input. */
  lemma {:induction false} FallbackNeverTaken(before: Option<string>, after: Option<string>)
    ensures var lo, hi := Normalize(before), Normalize(after);
      KeyBetween(before, after) == Midpoint(lo, if Ordered(lo, hi) then hi else "", 0)
  {
    var lo, hi := Normalize(before), Normalize(after);
    MidpointAbove(lo, if Ordered(lo, hi) then hi else "", 0);
  }

  /**
   * The upper bound, for every pair of bounds a caller can pass: the key is below it exactly when
   * the bounds are in order and not blocked.
   */
  lemma KeyBetweenExact(before: Option<string>, after: Option<string>)
    requires Normalize(after) != ""
    ensures var lo, hi, key := Normalize(before), Normalize(after), KeyBetween(before, after);
      Less(key, hi) <==> Ordered(lo, hi) && !Blocked(lo, hi)
  {
    var lo, hi := Normalize(before), Normalize(after);
    FallbackNeverTaken(before, after);
    if Ordered(lo, hi) {
      MidpointBelowExact(lo, hi);
    } else if Less(KeyBetween(before, after), hi) {
      KeyBetweenShape(before, after);
      LessTransitive(lo, KeyBetween(before, after), hi);
    }
  }

  /** Below a legal key, or below none, and above any lower bound or none: the promise without exceptions. */
  lemma {:induction false} KeyBetweenLegal(before: Option<string>, after: Option<string>)
    requires Truthy(after) ==> Legal(after.value) && Ordered(Normalize(before), after.value)
    ensures var lo, key := Normalize(before), KeyBetween(before, after);
      && Less(lo, key) && (Truthy(after) ==> Less(key, after.value))
      && IsKey(key) && !IsTerminal(key) && |key| <= Longer(lo, Normalize(after)) + 1
  {
    KeyBetweenShape(before, after);
    if Truthy(after) {
      KeyBetweenExact(before, after);
      LessIrreflexive(after.value);
      LegalNeverBlocked(Normalize(before), after.value);
    }
  }

  lemma ManyZeroesBlock(zeros: string)
    requires |zeros| == MAX_DEPTH + 1 && AllZero(zeros)
    ensures Blocked("", zeros + "b")
  {
    var hi := zeros + "b";
    assert hi[..|zeros|] == zeros && hi[|zeros|..] == "b" && hi[0..] == hi;
  }

  /** Without the wire's limit the promise fails: 65 zero digits and a "b" have no key below them. */
  lemma DepthCapBreaksUpperBound(zeros: string, hi: string)
    requires |zeros| == MAX_DEPTH + 1 && AllZero(zeros) && hi == zeros + "b"
    ensures IsKey(hi) && !IsTerminal(hi) && !Less(KeyBetween(None, Some(hi)), hi)
  {
    ManyZeroesBlock(zeros);
    assert hi[|hi| - 1] == 'b';
    KeyBetweenExact(None, Some(hi));
  }
}
