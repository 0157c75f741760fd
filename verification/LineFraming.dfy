/** Line framing of a child's output that arrives in arbitrary chunks (packages/lanes/src/codex.ts:197-205, 226). */
module LineFraming {

  const NEWLINE := '\n'

  /** `indexOf('\n')`, with the length for "not found". */
  function NewlineAt(s: string): (i: nat)
    ensures i <= |s| && NEWLINE !in s[..i]
    ensures i < |s| ==> s[i] == NEWLINE
  {
    if s == "" || s[0] == NEWLINE then 0
    else
      var i := 1 + NewlineAt(s[1..]);
      assert s[..i] == [s[0]] + s[1..][..i - 1];
      i
  }

  /** The lines of `s` that are complete. */
  function Complete(s: string): seq<string> {
    if s == "" then []
    else
      var before := s[..|s| - 1];
      if s[|s| - 1] == NEWLINE then Complete(before) + [Remainder(before)] else Complete(before)
  }

  /** What follows the last newline. */
  function Remainder(s: string): string {
    if s == "" || s[|s| - 1] == NEWLINE then "" else Remainder(s[..|s| - 1]) + [s[|s| - 1]]
  }

  function Pieces(s: string): seq<string> { Complete(s) + [Remainder(s)] }

  /** Each line with its newline, one after the other. */
  function Terminated(lines: seq<string>): string {
    if lines == [] then ""
    else Terminated(lines[..|lines| - 1]) + lines[|lines| - 1] + [NEWLINE]
  }

  lemma FramingSnoc(s: string, c: char)
    ensures Complete(s + [c]) == if c == NEWLINE then Complete(s) + [Remainder(s)] else Complete(s)
    ensures Remainder(s + [c]) == if c == NEWLINE then "" else Remainder(s) + [c]
  {
    assert (s + [c])[..|s|] == s;
  }

  lemma TerminatedSnoc(lines: seq<string>, line: string)
    ensures Terminated(lines + [line]) == Terminated(lines) + line + [NEWLINE]
  {
    assert (lines + [line])[..|lines|] == lines;
  }

  /** The pieces are a way to cut a text at its newlines. */
  lemma {:induction false} PiecesMakeTheText(s: string)
    ensures Terminated(Complete(s)) + Remainder(s) == s
  {
    if s != "" {
      var before, c := s[..|s| - 1], s[|s| - 1];
      PiecesMakeTheText(before);
      assert s == before + [c];
      FramingSnoc(before, c);
      PiecesSnoc(Complete(before), Remainder(before), before, c);
    }
  }

  lemma {:induction false} PiecesSnoc(lines: seq<string>, last: string, s: string, c: char)
    requires Terminated(lines) + last == s
    ensures Terminated(lines) + (last + [c]) == s + [c]
    ensures c == NEWLINE ==> Terminated(lines + [last]) + "" == s + [c]
  {
    TerminatedSnoc(lines, last);
    AppendAssociates(Terminated(lines), last, [c]);
  }

  lemma {:induction false} PiecesHoldNoNewline(s: string)
    ensures forall i | 0 <= i < |Complete(s)| :: NEWLINE !in Complete(s)[i]
    ensures NEWLINE !in Remainder(s)
  {
    if s != "" {
      PiecesHoldNoNewline(s[..|s| - 1]);
    }
  }

  /** And the only one. */
  lemma {:induction false} SplitIsUnique(lines: seq<string>, last: string)
    requires (forall i | 0 <= i < |lines| :: NEWLINE !in lines[i]) && NEWLINE !in last
    ensures Complete(Terminated(lines) + last) == lines && Remainder(Terminated(lines) + last) == last
  {
    if lines == [] {
      NothingComplete(last);
      assert Terminated(lines) + last == last;
    } else {
      var before, line := lines[..|lines| - 1], lines[|lines| - 1];
      var text := Terminated(before) + line;
      SplitIsUnique(before, line);
      FramingSnoc(text, NEWLINE);
      assert Complete(Terminated(lines)) == before + [line] == lines && Remainder(Terminated(lines)) == "";
      LastLine(Terminated(lines), last);
    }
  }

  lemma {:induction false} LastLine(text: string, last: string)
    requires Remainder(text) == "" && NEWLINE !in last
    ensures Complete(text + last) == Complete(text) && Remainder(text + last) == last
  {
    FramingAppend(text, last);
    NothingComplete(last);
    assert "" + last == last;
  }

  /** A text is cut at its newlines in exactly one way. */
  lemma {:induction false} PiecesAreTheSplit(s: string, lines: seq<string>, last: string)
    ensures Complete(s) == lines && Remainder(s) == last <==>
      Terminated(lines) + last == s && (forall i | 0 <= i < |lines| :: NEWLINE !in lines[i]) && NEWLINE !in last
  {
    PiecesMakeTheText(s);
    PiecesHoldNoNewline(s);
    if Terminated(lines) + last == s && (forall i | 0 <= i < |lines| :: NEWLINE !in lines[i]) && NEWLINE !in last {
      SplitIsUnique(lines, last);
    }
  }

  lemma {:induction false} PiecesHaveNoNewline(s: string)
    ensures forall p | p in Pieces(s) :: NEWLINE !in p
  {
    PiecesHoldNoNewline(s);
  }

  lemma {:induction false} NothingComplete(s: string)
    requires NEWLINE !in s
    ensures Complete(s) == [] && Remainder(s) == s
  {
    if s != "" {
      NothingComplete(s[..|s| - 1]);
    }
  }

  lemma AppendAssociates<T>(a: seq<T>, b: seq<T>, c: seq<T>)
    ensures a + (b + c) == a + b + c
  {
  }

  /** More text only ever adds lines behind those already complete. */
  lemma {:induction false} FramingAppend(a: string, b: string)
    ensures Complete(a + b) == Complete(a) + Complete(Remainder(a) + b)
    ensures Remainder(a + b) == Remainder(Remainder(a) + b)
    decreases |b|
  {
    if b == "" {
      assert a + b == a && Remainder(a) + b == Remainder(a);
      PiecesHoldNoNewline(a);
      NothingComplete(Remainder(a));
    } else {
      var before, c := b[..|b| - 1], b[|b| - 1];
      FramingAppend(a, before);
      FramingAppendSnoc(a, before, c);
      assert b == before + [c];
    }
  }

  lemma {:induction false} FramingAppendSnoc(a: string, b: string, c: char)
    requires Complete(a + b) == Complete(a) + Complete(Remainder(a) + b)
    requires Remainder(a + b) == Remainder(Remainder(a) + b)
    ensures Complete(a + (b + [c])) == Complete(a) + Complete(Remainder(a) + (b + [c]))
    ensures Remainder(a + (b + [c])) == Remainder(Remainder(a) + (b + [c]))
  {
    AppendAssociates(a, b, [c]);
    AppendAssociates(Remainder(a), b, [c]);
    FramingSnoc(a + b, c);
    FramingSnoc(Remainder(a) + b, c);
    AppendAssociates(Complete(a), Complete(Remainder(a) + b), [Remainder(a + b)]);
  }

  lemma OneLine(line: string)
    requires NEWLINE !in line
    ensures Complete(line + [NEWLINE]) == [line] && Remainder(line + [NEWLINE]) == ""
  {
    NothingComplete(line);
    FramingSnoc(line, NEWLINE);
  }

  /** Reading from the front, as the buffer loop does: the first line, then the rest. */
  lemma LineThenRest(line: string, rest: string)
    requires NEWLINE !in line
    ensures Complete(line + [NEWLINE] + rest) == [line] + Complete(rest)
    ensures Remainder(line + [NEWLINE] + rest) == Remainder(rest)
  {
    OneLine(line);
    FramingAppend(line + [NEWLINE], rest);
    assert "" + rest == rest;
  }

  /** Fold a line handler over lines. */
  function FoldLines<S>(handle: (S, string) -> S, s: S, lines: seq<string>): S
    decreases |lines|
  {
    if lines == [] then s else FoldLines(handle, handle(s, lines[0]), lines[1..])
  }

  lemma {:induction false} FoldLinesAppend<S>(handle: (S, string) -> S, s: S, a: seq<string>, b: seq<string>)
    ensures FoldLines(handle, s, a + b) == FoldLines(handle, FoldLines(handle, s, a), b)
    decreases |a|
  {
    if a == [] {
      assert a + b == b;
    } else {
      assert (a + b)[1..] == a[1..] + b;
      FoldLinesAppend(handle, handle(s, a[0]), a[1..], b);
    }
  }

  /** A framed reader: the handler's state and the unfinished line. */
  datatype Reader<S> = Reader(state: S, buffer: string)

  function Feed<S>(handle: (S, string) -> S, r: Reader<S>, chunk: string): Reader<S> {
    var text := r.buffer + chunk;
    Reader(FoldLines(handle, r.state, Complete(text)), Remainder(text))
  }

  function FeedAll<S>(handle: (S, string) -> S, r: Reader<S>, chunks: seq<string>): Reader<S>
    decreases |chunks|
  {
    if chunks == [] then r else FeedAll(handle, Feed(handle, r, chunks[0]), chunks[1..])
  }

  function Concat(chunks: seq<string>): string {
    if chunks == [] then "" else chunks[0] + Concat(chunks[1..])
  }

  lemma FeedTwice<S>(handle: (S, string) -> S, r: Reader<S>, a: string, b: string)
    ensures Feed(handle, Feed(handle, r, a), b) == Feed(handle, r, a + b)
  {
    var text := r.buffer + a;
    FramingAppend(text, b);
    FoldLinesAppend(handle, r.state, Complete(text), Complete(Remainder(text) + b));
    assert text + b == r.buffer + (a + b);
  }

  /** However the output is cut into chunks, the reader is where the whole output would have put it. */
  lemma {:induction false} ChunkingIsInvisible<S>(handle: (S, string) -> S, r: Reader<S>, chunks: seq<string>)
    requires NEWLINE !in r.buffer
    ensures FeedAll(handle, r, chunks) == Feed(handle, r, Concat(chunks))
    decreases |chunks|
  {
    if chunks == [] {
      NothingComplete(r.buffer);
      assert r.buffer + "" == r.buffer;
    } else {
      PiecesHoldNoNewline(r.buffer + chunks[0]);
      ChunkingIsInvisible(handle, Feed(handle, r, chunks[0]), chunks[1..]);
      FeedTwice(handle, r, chunks[0], Concat(chunks[1..]));
    }
  }
}
