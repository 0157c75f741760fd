/** Lists edited as plain lines: read line by line, skipping what says nothing, and joined for printing. */
module PlainLines {
  import opened Order
  import opened Text
  import opened LineFraming

  function ReadLines<T>(read: string -> Option<T>, lines: seq<string>): seq<T> {
    if lines == [] then []
    else
      match read(lines[0])
      case None => ReadLines(read, lines[1..])
      case Some(x) => [x] + ReadLines(read, lines[1..])
  }

  function PrintLines<T>(print_: T -> string, xs: seq<T>): seq<string> {
    seq(|xs|, i requires 0 <= i < |xs| => print_(xs[i]))
  }

  function JoinLines(lines: seq<string>): string {
    if lines == [] then ""
    else if |lines| == 1 then lines[0]
    else lines[0] + [NEWLINE] + JoinLines(lines[1..])
  }

  function IndexOf(s: string, c: char): (i: nat)
    ensures i <= |s| && c !in s[..i] && (i < |s| ==> s[i] == c)
  {
    if s == "" || s[0] == c then 0
    else
      var i := 1 + IndexOf(s[1..], c);
      assert s[..i] == [s[0]] + s[1..][..i - 1];
      i
  }

  /** The lines of joined lines are those lines; joining none still leaves one empty line. */
  lemma {:induction false} PiecesOfJoin(lines: seq<string>)
    requires forall l | l in lines :: NEWLINE !in l
    ensures Pieces(JoinLines(lines)) == if lines == [] then [""] else lines
  {
    if |lines| == 1 {
      NothingComplete(lines[0]);
    } else if lines != [] {
      PiecesOfJoin(lines[1..]);
      LineThenRest(lines[0], JoinLines(lines[1..]));
      assert Pieces(JoinLines(lines)) == [lines[0]] + Pieces(JoinLines(lines[1..]));
    }
  }

  /** Reading never finds more than there are lines; equally many means every line counts. */
  lemma {:induction false} ReadLinesCounts<T>(read: string -> Option<T>, lines: seq<string>)
    ensures |ReadLines(read, lines)| <= |lines|
    ensures |ReadLines(read, lines)| == |lines| <==> forall i | 0 <= i < |lines| :: read(lines[i]).Some?
    ensures |ReadLines(read, lines)| == |lines| ==>
      forall i | 0 <= i < |lines| :: read(lines[i]) == Some(ReadLines(read, lines)[i])
  {
    if lines != [] {
      ReadLinesCounts(read, lines[1..]);
      assert forall i | 1 <= i < |lines| :: lines[i] == lines[1..][i - 1];
      assert forall i | 0 <= i < |lines[1..]| :: lines[1..][i] == lines[i + 1];
    }
  }

  /** A list is read from its lines exactly when each line reads as its entry. */
  lemma ReadAsPrinted<T>(read: string -> Option<T>, lines: seq<string>, xs: seq<T>)
    requires |lines| == |xs|
    ensures ReadLines(read, lines) == xs <==> forall i | 0 <= i < |xs| :: read(lines[i]) == Some(xs[i])
  {
    ReadLinesCounts(read, lines);
    if forall i | 0 <= i < |xs| :: read(lines[i]) == Some(xs[i]) {
      assert |ReadLines(read, lines)| == |lines|;
    }
  }

  /** Whatever is read was read from some line. */
  lemma {:induction false} ReadFrom<T>(read: string -> Option<T>, lines: seq<string>, x: T) returns (line: string)
    requires x in ReadLines(read, lines)
    ensures line in lines && read(line) == Some(x)
  {
    if read(lines[0]) == Some(x) {
      line := lines[0];
    } else {
      line := ReadFrom(read, lines[1..], x);
    }
  }

  lemma TrimNoNewline(s: string)
    requires NEWLINE !in s
    ensures NEWLINE !in Trim(s)
  {
    var from, to := TrimIsStretch(s);
  }

  lemma {:induction false} IndexOfAppend(a: string, b: string, c: char)
    requires c !in a && b != "" && b[0] == c
    ensures IndexOf(a + b, c) == |a|
  {
    if a == "" {
      assert a + b == b;
    } else {
      assert (a + b)[1..] == a[1..] + b;
      IndexOfAppend(a[1..], b, c);
    }
  }
}
