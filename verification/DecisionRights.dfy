/** Decision rights as plain lines, "area -> approver" (apps/web/src/charter.ts:60-79). */
module DecisionRights {
  import opened Order
  import opened Text
  import opened LineFraming
  import opened PlainLines

  datatype Right = Right(area: string, approver: string)

  const MAX_SIDE := 200
  const ARROW := '\U{2192}'

  predicate ArrowHere(s: string, i: nat) { i + 1 < |s| && s[i] == '-' && s[i + 1] == '>' }

  /** `indexOf('->')`, with the length for "not found". */
  function ArrowAt(s: string): (i: nat)
    ensures i <= |s| && (i < |s| ==> ArrowHere(s, i))
    ensures forall k: nat | k < i :: !ArrowHere(s, k)
  {
    if s == "" || ArrowHere(s, 0) then 0
    else
      var i := 1 + ArrowAt(s[1..]);
      assert forall k: nat | 0 < k < |s| :: ArrowHere(s, k) <==> ArrowHere(s[1..], k - 1);
      i
  }

  /** Where the separator is and how wide: "->" first, then the arrow sign, then a colon. */
  function Separator(line: string): (nat, nat) {
    if ArrowAt(line) < |line| then (ArrowAt(line), 2)
    else if IndexOf(line, ARROW) < |line| then (IndexOf(line, ARROW), 1)
    else (IndexOf(line, ':'), 1)
  }

  function Build(area: string, approver: string): Option<Right> {
    if area == "" || approver == "" then None else Some(Right(Take(area, MAX_SIDE), Take(approver, MAX_SIDE)))
  }

  function ParseTrimmed(line: string): Option<Right> {
    var (at, width) := Separator(line);
    if at == 0 || at + width > |line| then None else Build(Trim(line[..at]), Trim(line[at + width..]))
  }

  function ParseLine(raw: string): Option<Right> { ParseTrimmed(Trim(raw)) }

  function FormatLine(r: Right): string { r.area + " -> " + r.approver }

  function Parse(input: string): seq<Right> { ReadLines(ParseLine, Pieces(input)) }

  function Format(rs: seq<Right>): string { JoinLines(PrintLines(FormatLine, rs)) }

  method ParseDecisionRights(input: string) returns (out: seq<Right>)
    ensures out == Parse(input)
  {
    out := [];
    var lines := Pieces(input);
    for i := 0 to |lines|
      invariant ReadLines(ParseLine, lines) == out + ReadLines(ParseLine, lines[i..])
    {
      ghost var rest := lines[i..];
      var parsed := ParseLine(lines[i]);
      assert rest[0] == lines[i] && rest[1..] == lines[i + 1..];
      if parsed.Some? {
        out := out + [parsed.value];
      }
    }
  }

  lemma FirstArrow(s: string, i: nat)
    requires ArrowHere(s, i) && forall k: nat | k < i :: !ArrowHere(s, k)
    ensures ArrowAt(s) == i
  {
  }

  // ---- which separator counts ----

  predicate HasArrow(s: string) { exists i | 0 <= i < |s| - 1 :: s[i] == '-' && s[i + 1] == '>' }

  /** The two sides of a line, trimmed and cut at 200 characters; nothing when one is missing. */
  function Sides(left: string, right: string): Option<Right> {
    if Trim(left) == "" || Trim(right) == "" then None
    else Some(Right(Take(Trim(left), 200), Take(Trim(right), 200)))
  }

  lemma HasArrowExactly(s: string)
    ensures HasArrow(s) <==> ArrowAt(s) < |s|
  {
    if i :| 0 <= i < |s| - 1 && s[i] == '-' && s[i + 1] == '>' {
      assert ArrowHere(s, i);
    }
  }

  lemma NothingOnTheLeft(right: string)
    ensures Sides("", right) == None
  {
    TrimmedStays("");
  }

  /** The first "->" of a line parts it, whatever arrow signs and colons it has. */
  lemma FirstArrowParts(left: string, right: string)
    requires !HasArrow(left + "-")
    ensures ParseTrimmed(left + "->" + right) == Sides(left, right)
  {
    var line := left + "->" + right;
    assert forall k: nat | k < |left| :: ArrowHere(line, k) <==> ArrowHere(left + "-", k);
    HasArrowExactly(left + "-");
    forall k: nat | k < |left| ensures !ArrowHere(line, k) {
      assert !ArrowHere(left + "-", k);
    }
    assert ArrowHere(line, |left|);
    FirstArrow(line, |left|);
    assert line[..|left|] == left && line[|left| + 2..] == right;
    NothingOnTheLeft(right);
  }

  /** Without "->" the first arrow sign does, whatever colons the line has. */
  lemma FirstSignParts(left: string, right: string)
    requires !HasArrow(left + [ARROW] + right) && ARROW !in left
    ensures ParseTrimmed(left + [ARROW] + right) == Sides(left, right)
  {
    var line := left + [ARROW] + right;
    HasArrowExactly(line);
    assert line == left + ([ARROW] + right);
    IndexOfAppend(left, [ARROW] + right, ARROW);
    assert line[..|left|] == left && line[|left| + 1..] == right;
    NothingOnTheLeft(right);
  }

  /** Without either the first colon does. */
  lemma FirstColonParts(left: string, right: string)
    requires !HasArrow(left + ":" + right) && ARROW !in left + ":" + right && ':' !in left
    ensures ParseTrimmed(left + ":" + right) == Sides(left, right)
  {
    var line := left + ":" + right;
    HasArrowExactly(line);
    assert line == left + (":" + right);
    IndexOfAppend(left, ":" + right, ':');
    assert Separator(line) == (|left|, 1);
    assert line[..|left|] == left && line[|left| + 1..] == right;
    NothingOnTheLeft(right);
  }

  /** And a line with none of the three says nothing. */
  lemma NoSeparatorIsNothing(line: string)
    requires !HasArrow(line) && ARROW !in line && ':' !in line
    ensures ParseTrimmed(line) == None
  {
    HasArrowExactly(line);
  }

  predicate CanonicalSide(s: string) {
    s != "" && |s| <= MAX_SIDE && NEWLINE !in s && Trimmed(s)
  }

  predicate Canonical(r: Right) {
    CanonicalSide(r.area) && CanonicalSide(r.approver) && ArrowAt(r.area) == |r.area|
  }

  /** The printed separator is the first arrow of the line unless the area has one of its own. */
  lemma ArrowOfPrinted(left: string, right: string)
    requires left == "" || left[|left| - 1] == ' '
    ensures ArrowAt(left + "->" + right) == if ArrowAt(left) < |left| then ArrowAt(left) else |left|
  {
    var s := left + "->" + right;
    assert forall k: nat | k < |left| :: ArrowHere(s, k) <==> ArrowHere(left, k);
    FirstArrow(s, if ArrowAt(left) < |left| then ArrowAt(left) else |left|);
  }

  /** What the parser sees of a printed right, both sides trimmed. */
  lemma {:induction false} TrimOfPrinted(
    r: Right, a0: string, a: string, a1: string, b0: string, b: string, b1: string)
    requires r.area == a0 + a + a1 && r.approver == b0 + b + b1
    requires Blank(a0) && Blank(a1) && Blank(b0) && Blank(b1) && Trimmed(a) && Trimmed(b)
    ensures Trim(FormatLine(r)) == PrintedSide(a, a1) + "->" + ReadSide(b0, b)
  {
    var before := LeftOf(r.area, a0, a, a1);
    var after := RightOf(r.approver, b0, b, b1);
    var left, right := PrintedSide(a, a1), ReadSide(b0, b);
    PrintedAround(r, before, left, right, after);
    ArrowIsTrimmed(left, right);
    TrimIs(before, left + "->" + right, after);
  }

  function PrintedSide(a: string, a1: string): string { if a == "" then "" else a + (a1 + " ") }

  function ReadSide(b0: string, b: string): string { if b == "" then "" else " " + b0 + b }

  lemma LeftOf(area: string, a0: string, a: string, a1: string) returns (before: string)
    requires area == a0 + a + a1 && Blank(a0) && Blank(a1) && Trimmed(a)
    ensures Blank(before) && before + PrintedSide(a, a1) == area + " "
    ensures PrintedSide(a, a1) == "" || !IsSpace(PrintedSide(a, a1)[0])
  {
    before := if a == "" then a0 + a1 + " " else a0;
  }

  lemma RightOf(approver: string, b0: string, b: string, b1: string) returns (after: string)
    requires approver == b0 + b + b1 && Blank(b0) && Blank(b1) && Trimmed(b)
    ensures Blank(after) && ReadSide(b0, b) + after == " " + approver
    ensures var right := ReadSide(b0, b); right == "" || !IsSpace(right[|right| - 1])
  {
    after := if b == "" then " " + b0 + b1 else b1;
  }

  lemma ArrowIsTrimmed(left: string, right: string)
    requires left == "" || !IsSpace(left[0])
    requires right == "" || !IsSpace(right[|right| - 1])
    ensures Trimmed(left + "->" + right)
  {
    var s := left + "->" + right;
    assert s[0] == (if left == "" then '-' else left[0]);
    assert s[|s| - 1] == (if right == "" then '>' else right[|right| - 1]);
  }

  lemma PrintedAround(r: Right, before: string, left: string, right: string, after: string)
    requires before + left == r.area + " " && right + after == " " + r.approver
    ensures FormatLine(r) == before + (left + "->" + right) + after
  {
    assert before + (left + "->" + right) + after == (before + left) + "->" + (right + after);
    assert r.area + " -> " + r.approver == (r.area + " ") + "->" + (" " + r.approver);
  }

  /** How such a line is cut: at the arrow printed, or earlier when the left side has one of its own. */
  lemma {:induction false} ParsePrinted(left: string, right: string)
    requires left == "" || left[|left| - 1] == ' '
    ensures var read := ParseTrimmed(left + "->" + right);
      if left == "" then read == None
      else if ArrowAt(left) < |left| then read == None || |read.value.area| <= ArrowAt(left)
      else read == Build(Trim(left), Trim(right))
  {
    ArrowOfPrinted(left, right);
    var line, at := left + "->" + right, ArrowAt(left);
    if at < |left| {
      var from, to := TrimIsStretch(line[..at]);
    } else {
      assert line[..|left|] == left && line[|left| + 2..] == right;
    }
  }

  lemma ArrowInTrimmed(a0: string, a: string, a1: string)
    requires Blank(a0) && Blank(a1)
    ensures ArrowAt(a + (a1 + " ")) < |a + (a1 + " ")| <==> ArrowAt(a) < |a|
    ensures ArrowAt(a) < |a| ==> ArrowAt(a + (a1 + " ")) < |a|
  {
    var s := a + (a1 + " ");
    assert forall k: nat | k < |s| :: ArrowHere(s, k) ==> k < |a| && s[k] == a[k];
    assert forall k: nat | k + 1 < |a| :: ArrowHere(s, k) <==> ArrowHere(a, k);
    assert forall k: nat | ArrowHere(s, k) :: k + 1 < |a| || IsSpace(s[k + 1]);
  }

  lemma TrimOfPrintedSides(a: string, a1: string, b0: string, b: string)
    requires Blank(a1) && Blank(b0) && Trimmed(a) && Trimmed(b)
    ensures Trim(a + (a1 + " ")) == a && Trim(" " + b0 + b) == b
  {
    TrimIs("", a, a1 + " ");
    assert "" + a + (a1 + " ") == a + (a1 + " ");
    TrimIs(" " + b0, b, "");
    assert " " + b0 + b + "" == " " + b0 + b;
  }

  /** One right survives printing and reading exactly when it is canonical. */
  lemma {:induction false} LineRoundTripExactly(r: Right)
    requires NEWLINE !in r.area && NEWLINE !in r.approver
    ensures ParseLine(FormatLine(r)) == Some(r) <==> Canonical(r)
  {
    var a, b := Trim(r.area), Trim(r.approver);
    LineReads(r, a, b);
    TrimExact(r.area);
    TrimExact(r.approver);
  }

  /** What a printed right reads as: its trimmed sides, unless one is missing or the area has an arrow. */
  lemma {:induction false} LineReads(r: Right, a: string, b: string)
    requires a == Trim(r.area) && b == Trim(r.approver)
    ensures var read := ParseLine(FormatLine(r));
      if a == "" then read == None
      else if ArrowAt(a) < |a| then read == None || |read.value.area| < |a|
      else read == Build(a, b)
  {
    var a0, a1 := TrimParts(r.area);
    var b0, b1 := TrimParts(r.approver);
    TrimIsTrimmed(r.area);
    TrimIsTrimmed(r.approver);
    TrimOfPrinted(r, a0, a, a1, b0, b, b1);
    PrintedReads(r, a, a1, b0, b);
  }

  /** A printed line with something on the left reads as its sides, unless the area has an arrow. */
  lemma PrintedLeft(a: string, a1: string, right: string)
    requires Blank(a1) && Trimmed(a) && a != ""
    ensures var read := ParseTrimmed(a + (a1 + " ") + "->" + right);
      if ArrowAt(a) < |a| then read == None || |read.value.area| < |a| else read == Build(a, Trim(right))
  {
    var left := a + (a1 + " ");
    ParsePrinted(left, right);
    ArrowInTrimmed("", a, a1);
    TrimOfPrintedSides(a, a1, "", "");
  }

  lemma {:induction false} PrintedReads(r: Right, a: string, a1: string, b0: string, b: string)
    requires Blank(a1) && Blank(b0) && Trimmed(a) && Trimmed(b)
    requires Trim(FormatLine(r)) == PrintedSide(a, a1) + "->" + ReadSide(b0, b)
    ensures var read := ParseLine(FormatLine(r));
      if a == "" then read == None
      else if ArrowAt(a) < |a| then read == None || |read.value.area| < |a|
      else read == Build(a, b)
  {
    var right := ReadSide(b0, b);
    TrimmedStays("");
    if a == "" {
      ParsePrinted("", right);
    } else {
      PrintedLeft(a, a1, right);
      TrimOfPrintedSides(a, a1, b0, b);
    }
  }

  // ---- the whole list ----

  lemma ParsedLineHasNoNewline(raw: string)
    requires NEWLINE !in raw
    ensures ParseLine(raw).Some? ==> NEWLINE !in ParseLine(raw).value.area && NEWLINE !in ParseLine(raw).value.approver
  {
    TrimNoNewline(raw);
    var line := Trim(raw);
    PartsHaveNoNewline(line, Separator(line).0, Separator(line).1);
  }

  lemma PartsHaveNoNewline(line: string, at: nat, width: nat)
    requires NEWLINE !in line
    ensures at + width <= |line| ==> NEWLINE !in Trim(line[..at]) && NEWLINE !in Trim(line[at + width..])
  {
    if at + width <= |line| {
      TrimNoNewline(line[..at]);
      TrimNoNewline(line[at + width..]);
    }
  }

  predicate SingleLine(r: Right) { NEWLINE !in r.area && NEWLINE !in r.approver }

  lemma FormatLineHasNoNewline(r: Right)
    requires SingleLine(r)
    ensures NEWLINE !in FormatLine(r)
  {
    assert NEWLINE !in " -> ";
  }

  lemma ParseOfFormat(rs: seq<Right>)
    requires forall r | r in rs :: SingleLine(r)
    ensures Parse(Format(rs)) == ReadLines(ParseLine, PrintLines(FormatLine, rs))
  {
    var lines := PrintLines(FormatLine, rs);
    forall l | l in lines ensures NEWLINE !in l {
      var i :| 0 <= i < |lines| && lines[i] == l;
      assert SingleLine(rs[i]) by { assert rs[i] in rs; }
      FormatLineHasNoNewline(rs[i]);
    }
    PiecesOfJoin(lines);
    if rs == [] {
      assert Trim("") == "" && ParseLine("") == None;
    }
  }

  /** Print, then read: every list of rights comes back exactly when each of them is canonical. */
  lemma RoundTripExactly(rs: seq<Right>)
    ensures Parse(Format(rs)) == rs <==> forall r | r in rs :: Canonical(r)
  {
    if forall r | r in rs :: SingleLine(r) {
      var lines := PrintLines(FormatLine, rs);
      ParseOfFormat(rs);
      ReadAsPrinted(ParseLine, lines, rs);
      forall i | 0 <= i < |rs| ensures ParseLine(lines[i]) == Some(rs[i]) <==> Canonical(rs[i]) {
        assert rs[i] in rs;
        LineRoundTripExactly(rs[i]);
      }
      assert (forall r | r in rs :: Canonical(r)) <==> forall i | 0 <= i < |rs| :: Canonical(rs[i]);
    } else if Parse(Format(rs)) == rs {
      var r :| r in rs && !SingleLine(r);
      PiecesHaveNoNewline(Format(rs));
      var line := ReadFrom(ParseLine, Pieces(Format(rs)), r);
      ParsedLineHasNoNewline(line);
    }
  }

  /** Neither side of the line is long enough to be cut. */
  predicate Uncut(raw: string) {
    var line := Trim(raw);
    var (at, width) := Separator(line);
    at + width <= |line| ==> |Trim(line[..at])| <= MAX_SIDE && |Trim(line[at + width..])| <= MAX_SIDE
  }

  /** No arrow before the first. */
  lemma {:induction false} NoArrowBefore(line: string, at: nat)
    requires at <= ArrowAt(line)
    ensures ArrowAt(Trim(line[..at])) == |Trim(line[..at])|
  {
    var area := Trim(line[..at]);
    var from, to := TrimIsStretch(line[..at]);
    var i := ArrowAt(area);
    assert area == line[from..to];
    assert i < |area| ==> from + i < ArrowAt(line) && !ArrowHere(line, from + i);
  }

  lemma SeparatorBeforeArrow(line: string)
    ensures Separator(line).0 <= ArrowAt(line)
  {
  }

  /** What is read from a line that is not cut is canonical. */
  lemma {:induction false} ParsedLineIsCanonical(raw: string)
    requires NEWLINE !in raw && Uncut(raw)
    ensures ParseLine(raw).Some? ==> Canonical(ParseLine(raw).value)
  {
    ParsedLineHasNoNewline(raw);
    var line := Trim(raw);
    var (at, width) := Separator(line);
    SeparatorBeforeArrow(line);
    if at != 0 && at + width <= |line| {
      var left, right := line[..at], line[at + width..];
      TrimIsTrimmed(left);
      TrimIsTrimmed(right);
      NoArrowBefore(line, at);
      assert ParseLine(raw) == Build(Trim(left), Trim(right));
    }
  }

  /** Read, print, read again: nothing changes for any input whose sides are at most 200 characters. */
  lemma {:induction false} ReadingIsStable(input: string)
    requires forall l | l in Pieces(input) :: Uncut(l)
    ensures Parse(Format(Parse(input))) == Parse(input)
  {
    PiecesHaveNoNewline(input);
    forall r | r in Parse(input) ensures Canonical(r) {
      var line := ReadFrom(ParseLine, Pieces(input), r);
      ParsedLineIsCanonical(line);
    }
    RoundTripExactly(Parse(input));
  }
}
