/** JavaScript's idea of white space, trimming and cutting. */
module Text {

  /** `slice(0, n)`. */
  function Take(s: string, n: nat): (r: string)
    ensures r <= s && |r| <= n && (|r| == n || r == s)
  {
    if |s| <= n then s else s[..n]
  }

  predicate IsSpace(c: char) {
    || c == ' ' || '\t' <= c <= '\r' || c == '\U{00A0}' || c == '\U{1680}' || '\U{2000}' <= c <= '\U{200A}'
    || c == '\U{2028}' || c == '\U{2029}' || c == '\U{202F}' || c == '\U{205F}' || c == '\U{3000}' || c == '\U{FEFF}'
  }

  predicate Blank(s: string) { forall i | 0 <= i < |s| :: IsSpace(s[i]) }

  function TrimStart(s: string): (r: string)
    ensures |r| <= |s| && (r == "" <==> Blank(s)) && (r != "" ==> !IsSpace(r[0]))
  {
    if s == "" then "" else if IsSpace(s[0]) then TrimStart(s[1..]) else s
  }

  function TrimEnd(s: string): (r: string)
    ensures |r| <= |s| && r <= s && (r == "" <==> Blank(s)) && (r != "" ==> !IsSpace(r[|r| - 1]))
  {
    if s == "" then "" else if IsSpace(s[|s| - 1]) then TrimEnd(s[..|s| - 1]) else s
  }

  function Trim(s: string): string { TrimStart(TrimEnd(s)) }

  /** No white space at either end. */
  predicate Trimmed(s: string) { s == "" || (!IsSpace(s[0]) && !IsSpace(s[|s| - 1])) }

  lemma {:induction false} TrimStartIsSuffix(s: string)
    ensures exists k | 0 <= k <= |s| :: TrimStart(s) == s[k..]
  {
    if s != "" && IsSpace(s[0]) {
      TrimStartIsSuffix(s[1..]);
      var k :| 0 <= k <= |s[1..]| && TrimStart(s[1..]) == s[1..][k..];
      assert TrimStart(s) == s[k + 1..];
    } else {
      assert TrimStart(s) == s[0..];
    }
  }

  lemma TrimIsStretch(s: string) returns (from: nat, to: nat)
    ensures from <= to <= |s| && Trim(s) == s[from..to]
  {
    var t := TrimEnd(s);
    from, to := |t| - |TrimStart(t)|, |t|;
    StartIsCut(t);
    assert t == s[..to];
  }

  lemma {:induction false} TrimIsTrimmed(s: string)
    ensures Trimmed(Trim(s))
  {
    var t := TrimEnd(s);
    TrimStartIsSuffix(t);
    var k :| 0 <= k <= |t| && TrimStart(t) == t[k..];
    assert k < |t| ==> t[k..][|t| - k - 1] == t[|t| - 1];
  }

  lemma TrimmedStays(s: string)
    requires Trimmed(s)
    ensures Trim(s) == s
  {
    if s != "" {
      assert TrimEnd(s) == s;
    }
  }

  /** Trimming leaves exactly the trimmed texts alone, and makes every other shorter. */
  lemma TrimExact(s: string)
    ensures Trim(s) == s <==> Trimmed(s)
    ensures !Trimmed(s) ==> |Trim(s)| < |s|
  {
    var from, to := TrimIsStretch(s);
    TrimIsTrimmed(s);
    if Trimmed(s) {
      TrimmedStays(s);
    }
  }

  lemma {:induction false} TrimEndAppend(a: string, b: string)
    ensures TrimEnd(a + b) == if Blank(b) then TrimEnd(a) else a + TrimEnd(b)
  {
    if b == "" {
      assert a + b == a;
    } else if IsSpace(b[|b| - 1]) {
      var before := b[..|b| - 1];
      assert (a + b)[..|a + b| - 1] == a + before;
      TrimEndAppend(a, before);
      assert Blank(b) <==> Blank(before);
    }
  }

  lemma {:induction false} TrimStartAppend(a: string, b: string)
    ensures TrimStart(a + b) == if Blank(a) then TrimStart(b) else TrimStart(a) + b
  {
    if a == "" {
      assert a + b == b;
    } else {
      assert (a + b)[1..] == a[1..] + b;
      TrimStartAppend(a[1..], b);
      assert Blank(a) <==> IsSpace(a[0]) && Blank(a[1..]);
    }
  }

  /** Blanks around a text do not change its trimmed form. */
  lemma TrimIgnoresBlanks(before: string, s: string, after: string)
    requires Blank(before) && Blank(after)
    ensures Trim(before + s + after) == Trim(s)
  {
    TrimEndAppend(before + s, after);
    TrimEndAppend(before, s);
    TrimStartAppend(before, TrimEnd(s));
    TrimEndBlank(before);
  }

  lemma TrimEndBlank(s: string)
    requires Blank(s)
    ensures TrimEnd(s) == "" && TrimStart(s) == ""
  {
  }

  /** A text is blanks, its trimmed form, blanks. */
  lemma TrimParts(s: string) returns (before: string, after: string)
    ensures s == before + Trim(s) + after && Blank(before) && Blank(after)
  {
    var t := TrimEnd(s);
    after := s[|t|..];
    assert s == t + after;
    EndIsBlank(s);
    StartIsBlank(t);
    StartIsCut(t);
    before := t[..|t| - |TrimStart(t)|];
  }

  lemma {:induction false} StartIsCut(s: string)
    ensures s == s[..|s| - |TrimStart(s)|] + TrimStart(s)
  {
    TrimStartIsSuffix(s);
    var k :| 0 <= k <= |s| && TrimStart(s) == s[k..];
    assert k == |s| - |TrimStart(s)|;
  }

  lemma {:induction false} EndIsBlank(s: string)
    ensures Blank(s[|TrimEnd(s)|..])
  {
    if s != "" && IsSpace(s[|s| - 1]) {
      var shorter := s[..|s| - 1];
      EndIsBlank(shorter);
      BlankAppend(shorter[|TrimEnd(s)|..], [s[|s| - 1]]);
      assert s[|TrimEnd(s)|..] == shorter[|TrimEnd(s)|..] + [s[|s| - 1]];
    }
  }

  lemma {:induction false} StartIsBlank(s: string)
    ensures Blank(s[..|s| - |TrimStart(s)|])
  {
    if s != "" && IsSpace(s[0]) {
      var shorter := s[1..];
      StartIsBlank(shorter);
      BlankAppend([s[0]], shorter[..|shorter| - |TrimStart(s)|]);
      assert s[..|s| - |TrimStart(s)|] == [s[0]] + shorter[..|shorter| - |TrimStart(s)|];
    }
  }

  lemma BlankAppend(a: string, b: string)
    requires Blank(a) && Blank(b)
    ensures Blank(a + b)
  {
  }

  /** And those parts are unique. */
  lemma TrimIs(before: string, x: string, after: string)
    requires Blank(before) && Blank(after) && Trimmed(x)
    ensures Trim(before + x + after) == x
  {
    TrimIgnoresBlanks(before, x, after);
    TrimmedStays(x);
  }
}
