/** The charter as plain lines: parsing and printing constraints (apps/web/src/charter.ts:22-58). */
module Charter {
  import opened Order
  import opened Text
  import opened LineFraming
  import opened PlainLines

  datatype Kind = Budget | Date | Resource | Policy

  datatype Constraint = Constraint(kind: Kind, text: string, hard: bool)

  const MAX_TEXT := 300

  function Name(k: Kind): string {
    match k
    case Budget => "budget"
    case Date => "date"
    case Resource => "resource"
    case Policy => "policy"
  }

  function LowerChar(c: char): char {
    if 'A' <= c <= 'Z' then (c as int + 32) as char else c
  }

  function Lower(s: string): (r: string)
    ensures |r| == |s|
  {
    if s == "" then "" else [LowerChar(s[0])] + Lower(s[1..])
  }

  function KindNamed(head: string): Option<Kind> {
    if head == "budget" then Some(Budget)
    else if head == "date" then Some(Date)
    else if head == "resource" then Some(Resource)
    else if head == "policy" then Some(Policy)
    else None
  }

  // ---- hard markers ----

  predicate EndsWith(s: string, marker: string) {
    |marker| <= |s| && Lower(s[|s| - |marker|..]) == marker
  }

  const HARD := "(hard)"
  const FIXED := "(fixed)"
  const NON_NEGOTIABLE := "(non-negotiable)"

  /** The length of the marker a text ends with, in any case; 0 for none. */
  function MarkerLength(s: string): (n: nat)
    ensures n <= |s|
  {
    if EndsWith(s, HARD) then |HARD|
    else if EndsWith(s, FIXED) then |FIXED|
    else if EndsWith(s, NON_NEGOTIABLE) then |NON_NEGOTIABLE|
    else 0
  }

  /** A trailing marker, blanks behind it allowed. */
  predicate Marked(s: string) { MarkerLength(TrimEnd(s)) > 0 }

  lemma {:induction false} TrimIsClean(s: string)
    ensures Trimmed(Trim(s)) && |Trim(s)| <= |s|
  {
    TrimIsTrimmed(s);
  }

  function TakeHard(s: string): (r: (string, bool))
    ensures Trimmed(r.0) && |r.0| <= |s|
  {
    var t := TrimEnd(s);
    var n := MarkerLength(t);
    TrimIsClean(t[..|t| - n]);
    TrimIsClean(s);
    if n > 0 then (Trim(t[..|t| - n]), true) else (Trim(s), false)
  }

  // ---- one line ----

  /** The kind a line names, and what it says: everything, or what follows the kind's colon. */
  function SplitKind(line: string): (Kind, string) {
    var colon := IndexOf(line, ':');
    if 0 < colon < |line| then
      match KindNamed(Lower(Trim(line[..colon])))
      case Some(kind) => (kind, line[colon + 1..])
      case None => (Policy, line)
    else (Policy, line)
  }

  function Build(kind: Kind, text: string, hard: bool): Option<Constraint> {
    if text == "" then None else Some(Constraint(kind, Take(text, MAX_TEXT), hard))
  }

  function ParseTrimmed(line: string): Option<Constraint> {
    if line == "" then None
    else
      var (kind, rest) := SplitKind(line);
      var (text, hard) := TakeHard(rest);
      Build(kind, text, hard)
  }

  function ParseLine(raw: string): Option<Constraint> { ParseTrimmed(Trim(raw)) }

  function FormatLine(c: Constraint): (r: string)
    ensures Name(c.kind) + ": " + c.text <= r
    ensures c.hard ==> |r| >= 6 && r[|r| - 6..] == "(hard)"
  {
    Name(c.kind) + ": " + c.text + (if c.hard then " (hard)" else "")
  }

  // ---- the whole text ----

  function Parse(input: string): seq<Constraint> { ReadLines(ParseLine, Pieces(input)) }

  function Format(cs: seq<Constraint>): string { JoinLines(PrintLines(FormatLine, cs)) }

  method ParseConstraints(input: string) returns (out: seq<Constraint>)
    ensures out == Parse(input)
  {
    out := [];
    var lines := Pieces(input);
    for i := 0 to |lines|
      invariant ReadLines(ParseLine, lines) == out + ReadLines(ParseLine, lines[i..])
    {
      assert lines[i..][1..] == lines[i + 1..];
      var parsed := ParseOne(lines[i]);
      if parsed.Some? {
        out := out + [parsed.value];
      }
    }
  }

  method ParseOne(raw: string) returns (c: Option<Constraint>)
    ensures c == ParseLine(raw)
  {
    var line := Trim(raw);
    if line == "" {
      return None;
    }
    var kind, rest := Policy, line;
    var colon := IndexOf(line, ':');
    if 0 < colon < |line| {
      var found := KindNamed(Lower(Trim(line[..colon])));
      if found.Some? {
        kind := found.value;
        rest := line[colon + 1..];
      }
    }
    var (text, hard) := TakeHard(rest);
    return Build(kind, text, hard);
  }

  // ---- what a line means, in any case ----

  /** Two letters that are the same but for their case, or the same character. */
  predicate SameLetter(c: char, d: char) {
    c == d || ('A' <= c <= 'Z' && d as int == c as int + 32) || ('A' <= d <= 'Z' && c as int == d as int + 32)
  }

  predicate SameButCase(s: string, t: string) {
    |s| == |t| && forall i | 0 <= i < |s| :: SameLetter(s[i], t[i])
  }

  predicate NoCapitals(t: string) { forall i | 0 <= i < |t| :: !('A' <= t[i] <= 'Z') }

  lemma SameButCaseCons(s: string, t: string)
    requires s != "" && t != ""
    ensures SameButCase(s, t) <==> SameLetter(s[0], t[0]) && SameButCase(s[1..], t[1..])
  {
    assert forall i | 1 <= i < |s| :: s[i] == s[1..][i - 1];
    assert forall i | 1 <= i < |t| :: t[i] == t[1..][i - 1];
  }

  lemma {:induction false} LowerIs(s: string, t: string)
    requires NoCapitals(t)
    ensures Lower(s) == t <==> SameButCase(s, t)
  {
    if |s| == |t| && s != "" {
      var low := Lower(s);
      LowerIs(s[1..], t[1..]);
      SameButCaseCons(s, t);
      assert low[0] == LowerChar(s[0]) && low[1..] == Lower(s[1..]);
      assert low == [low[0]] + low[1..] && t == [t[0]] + t[1..];
      assert LowerChar(s[0]) == t[0] <==> SameLetter(s[0], t[0]);
    }
  }

  /** What names a kind in front of the first colon: its name in any case, with any blanks around. */
  predicate Heads(head: string, k: Kind) { ':' !in head && SameButCase(Trim(head), Name(k)) }

  lemma NamesHaveNoCapitals()
    ensures forall k: Kind :: NoCapitals(Name(k))
  {
  }

  lemma KindNamedExactly(head: string, k: Kind)
    ensures KindNamed(Lower(head)) == Some(k) <==> SameButCase(head, Name(k))
  {
    NamesHaveNoCapitals();
    NamesDiffer();
    LowerIs(head, Name(k));
    assert KindNamed(Name(k)) == Some(k);
  }

  /** The line names a kind, and `rest` is what follows. */
  ghost predicate Named(line: string, k: Kind, rest: string) {
    exists head :: Heads(head, k) && line == head + ":" + rest
  }

  /** A kind is read off a line exactly when the line's head names it; else the line is a policy, all of it. */
  lemma KindExactly(line: string)
    ensures forall k, rest :: Named(line, k, rest) ==> SplitKind(line) == (k, rest)
    ensures (forall k, rest :: !Named(line, k, rest)) ==> SplitKind(line) == (Policy, line)
  {
    forall k, rest | Named(line, k, rest) ensures SplitKind(line) == (k, rest) {
      var head :| Heads(head, k) && line == head + ":" + rest;
      HeadSplits(head, k, rest);
    }
    SplitIsNamed(line);
  }

  lemma SplitIsNamed(line: string)
    ensures SplitKind(line) == (Policy, line) || Named(line, SplitKind(line).0, SplitKind(line).1)
  {
    var colon := IndexOf(line, ':');
    if 0 < colon < |line| {
      var head, rest := line[..colon], line[colon + 1..];
      var found := KindNamed(Lower(Trim(head)));
      if found.Some? {
        KindNamedExactly(Trim(head), found.value);
        assert Heads(head, found.value) && line == head + ":" + rest;
      }
    }
  }

  lemma HeadSplits(head: string, k: Kind, rest: string)
    requires Heads(head, k)
    ensures SplitKind(head + ":" + rest) == (k, rest)
  {
    var line := head + ":" + rest;
    NamesDiffer();
    assert head != "" by {
      if head == "" {
        TrimmedStays("");
      }
    }
    assert line == head + (":" + rest);
    IndexOfAppend(head, ":" + rest, ':');
    assert line[..|head|] == head && line[|head| + 1..] == rest;
    KindNamedExactly(Trim(head), k);
  }

  /** The three ways to say that a constraint is fixed. */
  predicate IsMarker(m: string) {
    SameButCase(m, "(hard)") || SameButCase(m, "(fixed)") || SameButCase(m, "(non-negotiable)")
  }

  lemma EndsWithExactly(s: string, m: string, marker: string)
    requires NoCapitals(marker) && |m| <= |s| && m == s[|s| - |m|..]
    ensures |m| == |marker| ==> (EndsWith(s, marker) <==> SameButCase(m, marker))
  {
    if |m| == |marker| {
      LowerIs(m, marker);
    }
  }

  lemma MarkerHasParentheses(m: string)
    requires IsMarker(m)
    ensures m != "" && m[0] == '(' && m[|m| - 1] == ')' && forall i | 0 < i < |m| :: m[i] != '('
  {
  }

  /** Ending in a marker determines the marker: its parenthesis opens it. */
  lemma MarkerLengthExactly(t: string, m: string)
    requires IsMarker(m)
    ensures MarkerLength(t + m) == |m|
  {
    var s := t + m;
    assert s[|s| - |m|..] == m;
    MarkerHasParentheses(m);
    EndsWithExactly(s, m, HARD);
    EndsWithExactly(s, m, FIXED);
    EndsWithExactly(s, m, NON_NEGOTIABLE);
    assert NoCapitals(HARD) && NoCapitals(FIXED) && NoCapitals(NON_NEGOTIABLE);
    EndsOnlyWith(s, m, HARD);
    EndsOnlyWith(s, m, FIXED);
    EndsOnlyWith(s, m, NON_NEGOTIABLE);
  }

  lemma EndsOnlyWith(s: string, m: string, marker: string)
    requires IsMarker(m) && IsMarker(marker) && NoCapitals(marker)
    requires |m| <= |s| && m == s[|s| - |m|..]
    ensures EndsWith(s, marker) ==> |marker| == |m|
  {
    if EndsWith(s, marker) {
      var e := s[|s| - |marker|..];
      LowerIs(e, marker);
      MarkerHasParentheses(m);
      MarkerHasParentheses(marker);
      assert e[0] == '(';
      if |m| < |e| {
        assert e[|e| - |m|] == m[0] == '(';
        assert SameLetter(e[|e| - |m|], marker[|e| - |m|]);
      }
    }
  }

  lemma EndIsMarker(s: string, marker: string)
    requires NoCapitals(marker) && EndsWith(s, marker)
    ensures SameButCase(s[|s| - |marker|..], marker)
  {
    LowerIs(s[|s| - |marker|..], marker);
  }

  lemma MarkerFound(s: string)
    requires MarkerLength(s) > 0
    ensures IsMarker(s[|s| - MarkerLength(s)..])
  {
    if EndsWith(s, HARD) {
      EndIsMarker(s, HARD);
    } else if EndsWith(s, FIXED) {
      EndIsMarker(s, FIXED);
    } else {
      EndIsMarker(s, NON_NEGOTIABLE);
    }
  }

  /** What comes before a trailing marker, if the text has one. */
  ghost predicate HardBehind(s: string, t: string) {
    exists m, blanks :: IsMarker(m) && Blank(blanks) && s == t + m + blanks
  }

  /** A constraint is hard exactly when its text ends in a marker, in any case and blanks aside. */
  lemma HardExactly(s: string)
    ensures forall t :: HardBehind(s, t) ==> TakeHard(s) == (Trim(t), true)
    ensures (forall t :: !HardBehind(s, t)) ==> TakeHard(s) == (Trim(s), false)
  {
    forall t | HardBehind(s, t) ensures TakeHard(s) == (Trim(t), true) {
      var m, blanks :| IsMarker(m) && Blank(blanks) && s == t + m + blanks;
      MarkedReads(t, m, blanks);
    }
    var end := TrimEnd(s);
    var n := MarkerLength(end);
    if n > 0 {
      MarkerFound(end);
      EndIsBlank(s);
      var t, m, blanks := end[..|end| - n], end[|end| - n..], s[|end|..];
      assert end == t + m && s == t + m + blanks;
      assert HardBehind(s, t);
    }
  }

  lemma MarkedReads(t: string, m: string, blanks: string)
    requires IsMarker(m) && Blank(blanks)
    ensures TakeHard(t + m + blanks) == (Trim(t), true)
  {
    var s, body := t + m + blanks, t + m;
    MarkerHasParentheses(m);
    TrimEndAppend(body, blanks);
    assert body[|body| - 1] == ')';
    assert TrimEnd(body) == body;
    MarkerLengthExactly(t, m);
    assert body[..|body| - |m|] == t;
  }

  /**
   * A line that names its kind and ends in a marker, in whatever case, reads as a hard constraint of that
   * kind, its text trimmed and cut at 300 characters.
   */
  lemma AnyCaseReads(raw: string, head: string, k: Kind, text: string, m: string, blanks: string)
    requires Heads(head, k) && IsMarker(m) && Blank(blanks)
    requires Trim(raw) == head + ":" + (text + m + blanks)
    ensures ParseLine(raw) ==
      if Trim(text) == "" then None else Some(Constraint(k, Take(Trim(text), 300), true))
  {
    HeadSplits(head, k, text + m + blanks);
    MarkedReads(text, m, blanks);
  }

  // ---- printing one line and reading it back ----

  /** What the printer can print so that the parser reads the same. */
  predicate Canonical(c: Constraint) {
    && c.text != "" && |c.text| <= MAX_TEXT && NEWLINE !in c.text && Trimmed(c.text)
    && (!c.hard ==> !Marked(c.text))
  }

  predicate LowerCase(s: string) {
    forall i | 0 <= i < |s| :: 'a' <= s[i] <= 'z'
  }

  lemma {:induction false} LowerKeeps(s: string)
    requires LowerCase(s)
    ensures Lower(s) == s
  {
    if s != "" {
      LowerKeeps(s[1..]);
    }
  }

  lemma NamesDiffer()
    ensures "budget"[0] == 'b' && "date"[0] == 'd' && "resource"[0] == 'r' && "policy"[0] == 'p'
  {
  }

  lemma NameIsPlain(k: Kind)
    ensures Name(k) != "" && LowerCase(Name(k)) && KindNamed(Name(k)) == Some(k)
  {
    NamesDiffer();
  }

  lemma SplitKindOfName(k: Kind, rest: string)
    ensures SplitKind(Name(k) + ":" + rest) == (k, rest)
  {
    var name := Name(k);
    var line := name + ":" + rest;
    NameIsPlain(k);
    LowerKeeps(name);
    assert line == name + (":" + rest);
    IndexOfAppend(name, ":" + rest, ':');
    assert line[..|name|] == name && line[|name| + 1..] == rest;
    TrimmedStays(name);
  }

  lemma {:induction false} ParseNamed(k: Kind, rest: string)
    ensures var (text, hard) := TakeHard(rest); ParseTrimmed(Name(k) + ":" + rest) == Build(k, text, hard)
  {
    SplitKindOfName(k, rest);
  }

  lemma TakeHardMarked(text: string)
    ensures TakeHard(" " + text + " (hard)") == (Trim(text), true)
  {
    var s := " " + text + " (hard)";
    assert TrimEnd(s) == s;
    assert s[|s| - |HARD|..] == HARD && s[..|s| - |HARD|] == " " + text + " ";
    assert Lower(HARD) == HARD;
    TrimIgnoresBlanks(" ", text, " ");
  }

  lemma {:induction false} TakeHardSoft(text: string)
    requires !Blank(text)
    ensures var (t, hard) := TakeHard(TrimEnd(" " + text));
      (hard <==> Marked(text)) && (!hard ==> t == Trim(text))
  {
    var end := TrimEnd(text);
    TrimEndAppend(" ", text);
    assert TrimEnd(" " + text) == " " + end;
    assert TrimEnd(" " + end) == " " + end && TrimEnd(end) == end;
    MarkerBehindBlank(end);
    TrimIgnoresBlanks(" ", end, "");
    assert " " + end + "" == " " + end;
  }

  /** A blank in front of a text neither hides nor completes a marker. */
  lemma MarkerBehindBlank(t: string)
    ensures MarkerLength(" " + t) == MarkerLength(t)
  {
    EndsBehindBlank(t, HARD);
    EndsBehindBlank(t, FIXED);
    EndsBehindBlank(t, NON_NEGOTIABLE);
  }

  lemma EndsBehindBlank(t: string, marker: string)
    requires marker != "" && marker[0] == '('
    ensures EndsWith(" " + t, marker) <==> EndsWith(t, marker)
  {
    var s := " " + t;
    if |marker| <= |t| {
      assert s[|s| - |marker|..] == t[|t| - |marker|..];
    } else if |marker| == |s| {
      assert s[0..] == s && Lower(s)[0] == ' ';
    }
  }

  lemma {:induction false} PrintedHard(c: Constraint)
    requires c.hard
    ensures ParseLine(FormatLine(c)) ==
      if Trim(c.text) == "" then None else Some(Constraint(c.kind, Take(Trim(c.text), MAX_TEXT), true))
  {
    var name, rest := Name(c.kind), " " + c.text + " (hard)";
    NameIsPlain(c.kind);
    assert FormatLine(c) == name + ":" + rest;
    TrimmedStays(name + ":" + rest);
    ParseNamed(c.kind, rest);
    TakeHardMarked(c.text);
  }

  lemma TrimOfSoft(head: string, text: string)
    requires Trimmed(head) && head != ""
    ensures Trim(head + (" " + text)) == head + TrimEnd(" " + text)
  {
    var rest := " " + text;
    TrimEndAppend(head, rest);
    assert TrimEnd(head) == head;
    if Blank(rest) {
      assert head + TrimEnd(rest) == head;
    }
  }

  lemma {:induction false} SoftReads(c: Constraint)
    requires !c.hard
    ensures var (text, hard) := TakeHard(TrimEnd(" " + c.text));
      var read := Build(c.kind, text, hard);
      if Blank(c.text) then read == None
      else if Marked(c.text) then read == None || read.value.hard
      else read == Some(Constraint(c.kind, Take(Trim(c.text), MAX_TEXT), false))
  {
    if Blank(c.text) {
      assert TrimEnd(" " + c.text) == "" && TakeHard("") == ("", false);
    } else {
      TakeHardSoft(c.text);
    }
  }

  lemma {:induction false} PrintedSoft(c: Constraint)
    requires !c.hard
    ensures var read := ParseLine(FormatLine(c));
      if Blank(c.text) then read == None
      else if Marked(c.text) then read == None || read.value.hard
      else read == Some(Constraint(c.kind, Take(Trim(c.text), MAX_TEXT), false))
  {
    var head, rest := Name(c.kind) + ":", " " + c.text;
    NameIsPlain(c.kind);
    assert FormatLine(c) == head + rest;
    TrimOfSoft(head, c.text);
    ParseNamed(c.kind, TrimEnd(rest));
    SoftReads(c);
  }

  /** One constraint survives printing and reading exactly when it is canonical. */
  lemma {:induction false} LineRoundTripExactly(c: Constraint)
    requires NEWLINE !in c.text
    ensures ParseLine(FormatLine(c)) == Some(c) <==> Canonical(c)
  {
    TrimExact(c.text);
    if c.hard {
      PrintedHard(c);
    } else {
      PrintedSoft(c);
    }
  }

  // ---- printing a whole charter and reading it back ----

  lemma FormatLineHasNoNewline(c: Constraint)
    requires NEWLINE !in c.text
    ensures NEWLINE !in FormatLine(c)
  {
    NameIsPlain(c.kind);
  }

  lemma TakeHardNoNewline(rest: string)
    requires NEWLINE !in rest
    ensures NEWLINE !in TakeHard(rest).0
  {
    var t := TrimEnd(rest);
    TrimNoNewline(rest);
    TrimNoNewline(t[..|t| - MarkerLength(t)]);
  }

  /** Nothing that is read contains a newline. */
  lemma ParsedLineHasNoNewline(raw: string)
    requires NEWLINE !in raw
    ensures ParseLine(raw).Some? ==> NEWLINE !in ParseLine(raw).value.text
  {
    TrimNoNewline(raw);
    var rest := SplitKind(Trim(raw)).1;
    assert NEWLINE !in rest;
    TakeHardNoNewline(rest);
  }

  lemma ParseOfFormat(cs: seq<Constraint>)
    requires forall c | c in cs :: NEWLINE !in c.text
    ensures Parse(Format(cs)) == ReadLines(ParseLine, PrintLines(FormatLine, cs))
  {
    var lines := PrintLines(FormatLine, cs);
    forall l | l in lines ensures NEWLINE !in l {
      var i :| 0 <= i < |lines| && lines[i] == l;
      assert cs[i] in cs;
      FormatLineHasNoNewline(cs[i]);
    }
    PiecesOfJoin(lines);
    if cs == [] {
      assert Trim("") == "" && ParseLine("") == None;
    }
  }

  lemma {:induction false} RoundTripOfLines(cs: seq<Constraint>)
    requires forall c | c in cs :: NEWLINE !in c.text
    ensures ReadLines(ParseLine, PrintLines(FormatLine, cs)) == cs <==> forall c | c in cs :: Canonical(c)
  {
    var lines := PrintLines(FormatLine, cs);
    ReadAsPrinted(ParseLine, lines, cs);
    forall i | 0 <= i < |cs| ensures ParseLine(lines[i]) == Some(cs[i]) <==> Canonical(cs[i]) {
      assert cs[i] in cs;
      LineRoundTripExactly(cs[i]);
    }
    assert (forall c | c in cs :: Canonical(c)) <==> forall i | 0 <= i < |cs| :: Canonical(cs[i]);
  }

  /** Print, then read: every list of constraints comes back exactly when each of them is canonical. */
  lemma RoundTripExactly(cs: seq<Constraint>)
    ensures Parse(Format(cs)) == cs <==> forall c | c in cs :: Canonical(c)
  {
    if forall c | c in cs :: NEWLINE !in c.text {
      ParseOfFormat(cs);
      RoundTripOfLines(cs);
    } else if Parse(Format(cs)) == cs {
      var c :| c in cs && NEWLINE in c.text;
      PiecesHaveNoNewline(Format(cs));
      var line := ReadFrom(ParseLine, Pieces(Format(cs)), c);
      ParsedLineHasNoNewline(line);
    }
  }

  /** What is read from a line short enough not to be cut is canonical. */
  lemma {:induction false} ParsedLineIsCanonical(raw: string)
    requires NEWLINE !in raw && |Trim(raw)| <= MAX_TEXT
    ensures ParseLine(raw).Some? ==> Canonical(ParseLine(raw).value)
  {
    ParsedLineHasNoNewline(raw);
    var line := Trim(raw);
    if line != "" {
      var (kind, rest) := SplitKind(line);
      TakenIsClean(rest);
    }
  }

  /** What is left of a line once its marker is taken. */
  lemma {:induction false} TakenIsClean(rest: string)
    ensures var (text, hard) := TakeHard(rest); Trimmed(text) && |text| <= |rest| && (!hard ==> !Marked(text))
  {
    if !TakeHard(rest).1 {
      TrimStaysUnmarked(rest);
      assert TakeHard(rest) == (Trim(rest), false);
    }
  }

  lemma {:induction false} TrimStaysUnmarked(s: string)
    requires MarkerLength(TrimEnd(s)) == 0
    ensures !Marked(Trim(s))
  {
    var t := TrimEnd(s);
    TrimIsTrimmed(s);
    TrimmedStays(Trim(s));
    TrimStartIsSuffix(t);
    var k :| 0 <= k <= |t| && Trim(s) == t[k..];
    if Trim(s) != "" {
      assert TrimEnd(Trim(s)) == Trim(s);
    }
    SuffixUnmarked(t, k);
  }

  lemma {:induction false} SuffixUnmarked(t: string, k: nat)
    requires k <= |t| && MarkerLength(t) == 0
    ensures MarkerLength(t[k..]) == 0
  {
    SuffixEnds(t, k, HARD);
    SuffixEnds(t, k, FIXED);
    SuffixEnds(t, k, NON_NEGOTIABLE);
  }

  lemma {:induction false} SuffixEnds(t: string, k: nat, marker: string)
    requires k <= |t|
    ensures EndsWith(t[k..], marker) ==> EndsWith(t, marker)
  {
    if |marker| <= |t[k..]| {
      assert t[k..][|t[k..]| - |marker|..] == t[|t| - |marker|..];
    }
  }

  /** Read, print, read again: nothing changes for any input whose lines are at most 300 characters. */
  lemma {:induction false} ReadingIsStable(input: string)
    requires forall l | l in Pieces(input) :: |Trim(l)| <= MAX_TEXT
    ensures Parse(Format(Parse(input))) == Parse(input)
  {
    PiecesHaveNoNewline(input);
    forall c | c in Parse(input) ensures Canonical(c) {
      var line := ReadFrom(ParseLine, Pieces(input), c);
      ParsedLineIsCanonical(line);
    }
    RoundTripExactly(Parse(input));
  }
}
