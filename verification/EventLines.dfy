/** A child process as a lane runner sees it: one event a line, unreadable lines ignored, and an end. */
module EventLines {
  import opened Order
  import opened LineFraming
  import opened Text

  /** How a lane ends. */
  datatype Exit = DoneExit | PartialExit | AbortedExit | BudgetExit | CancelledExit

  /** How the child ended: it never ran properly, or with a timeout flag and an exit code. */
  datatype Child = Threw | Ended(timedOut: bool, exitCode: int)

  function OnLine<S, E>(parse: string -> Option<E>, step: (S, E) -> S, s: S, line: string): S {
    if Blank(line) then s
    else
      match parse(line)
      case None => s
      case Some(ev) => step(s, ev)
  }

  function Handler<S, E>(parse: string -> Option<E>, step: (S, E) -> S): (S, string) -> S {
    (s, line) => OnLine(parse, step, s, line)
  }

  /** The events a list of lines carries. */
  function Parsed<E>(parse: string -> Option<E>, lines: seq<string>): seq<E> {
    if lines == [] then []
    else
      var n := |lines| - 1;
      var before, ev := Parsed(parse, lines[..n]), parse(lines[n]);
      if Blank(lines[n]) || ev.None? then before else before + [ev.value]
  }

  function Steps<S, E>(step: (S, E) -> S, s: S, evs: seq<E>): S {
    if evs == [] then s else step(Steps(step, s, evs[..|evs| - 1]), evs[|evs| - 1])
  }

  lemma {:induction false} FoldIsSteps<S, E>(parse: string -> Option<E>, step: (S, E) -> S, s: S, lines: seq<string>)
    ensures FoldLines(Handler(parse, step), s, lines) == Steps(step, s, Parsed(parse, lines))
  {
    if lines != [] {
      var n := |lines| - 1;
      FoldIsSteps(parse, step, s, lines[..n]);
      FoldLinesAppend(Handler(parse, step), s, lines[..n], [lines[n]]);
      assert lines == lines[..n] + [lines[n]];
      var before := Parsed(parse, lines[..n]);
      var ev := parse(lines[n]);
      if !Blank(lines[n]) && ev.Some? {
        assert (before + [ev.value])[..|before|] == before;
      }
      assert [lines[n]][1..] == [];
    }
  }

  /** The state once the child has exited: the chunks as they came, then the line without a newline. */
  function AtExit<S, E>(parse: string -> Option<E>, step: (S, E) -> S, s: S, chunks: seq<string>): S {
    var r := FeedAll(Handler(parse, step), Reader(s, ""), chunks);
    OnLine(parse, step, r.state, r.buffer)
  }

  /** It depends on the whole output only: the events of its lines, in order. */
  lemma AtExitIsWhole<S, E>(parse: string -> Option<E>, step: (S, E) -> S, s: S, chunks: seq<string>)
    ensures AtExit(parse, step, s, chunks) == Steps(step, s, Parsed(parse, Pieces(Concat(chunks))))
  {
    var text := Concat(chunks);
    ChunkingIsInvisible(Handler(parse, step), Reader(s, ""), chunks);
    assert "" + text == text;
    FoldIsSteps(parse, step, s, Pieces(text));
    FoldLinesAppend(Handler(parse, step), s, Complete(text), [Remainder(text)]);
    assert [Remainder(text)][1..] == [];
  }
}
