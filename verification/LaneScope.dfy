/** Scope overlap of parallel lanes by path prefixes (packages/daemon/src/lane-scope.ts). */
module LaneScope {

  datatype ActiveScope = ActiveScope(laneId: string, paths: seq<string>)

  /** Trailing slashes are not part of a path. */
  function Norm(p: string): (r: string)
    ensures r <= p && (r == "" || r[|r| - 1] != '/')
    ensures forall i | |r| <= i < |p| :: p[i] == '/'
  {
    if p != "" && p[|p| - 1] == '/' then Norm(p[..|p| - 1]) else p
  }

  /** Equal to, or nested under, a root. */
  predicate IsWithin(path: string, root: string) {
    Norm(path) == Norm(root) || Norm(root) + "/" <= Norm(path)
  }

  predicate PathsOverlap(a: string, b: string) { IsWithin(a, b) || IsWithin(b, a) }

  predicate ScopesOverlap(a: seq<string>, b: seq<string>) {
    exists i, j | 0 <= i < |a| && 0 <= j < |b| :: PathsOverlap(a[i], b[j])
  }

  function ActiveScopeConflicts(candidate: seq<string>, active: seq<ActiveScope>): seq<string> {
    if candidate == [] || active == [] then []
    else
      (if ScopesOverlap(candidate, active[0].paths) then [active[0].laneId] else [])
      + ActiveScopeConflicts(candidate, active[1..])
  }

  lemma PrefixOfPrefix(a: string, b: string, c: string)
    requires a <= b && b <= c
    ensures a <= c
  {
    assert b == c[..|b|] && a == b[..|a|];
  }

  /** Two prefixes of one string are prefixes of each other. */
  lemma PrefixesCompare(a: string, b: string, c: string)
    requires a <= c && b <= c
    ensures a <= b || b <= a
  {
    assert a == c[..|a|] && b == c[..|b|];
  }

  /** Containment is a preorder. */
  lemma WithinIsPreorder(a: string, b: string, c: string)
    ensures IsWithin(a, a)
    ensures IsWithin(a, b) && IsWithin(b, c) ==> IsWithin(a, c)
  {
    var x, y, z := Norm(a), Norm(b), Norm(c);
    if y + "/" <= x && z + "/" <= y {
      assert y <= y + "/";
      PrefixOfPrefix(y, y + "/", x);
      PrefixOfPrefix(z + "/", y, x);
    }
  }

  /** Two directories that share a descendant are nested. */
  lemma SharedDescendant(a: string, b: string, x: string)
    requires IsWithin(x, a) && IsWithin(x, b)
    ensures PathsOverlap(a, b)
  {
    var na, nb, nx := Norm(a), Norm(b), Norm(x);
    if na + "/" <= nx && nb + "/" <= nx {
      PrefixesCompare(na + "/", nb + "/", nx);
      if na + "/" <= nb + "/" {
        NestedWithSlash(na, nb);
      } else {
        NestedWithSlash(nb, na);
      }
    }
  }

  lemma NestedWithSlash(a: string, b: string)
    requires a + "/" <= b + "/"
    ensures a == b || a + "/" <= b
  {
    assert (a + "/")[..|a|] == a && (b + "/")[..|b|] == b;
    if |a| < |b| {
      assert b[..|a| + 1] == (b + "/")[..|a| + 1];
    }
  }

  /** Paths overlap exactly when some path lies within both: the prefix test decides sharing. */
  lemma OverlapIsSharing(a: string, b: string)
    ensures PathsOverlap(a, b) <==> exists x :: IsWithin(x, a) && IsWithin(x, b)
  {
    if PathsOverlap(a, b) {
      WithinIsPreorder(a, a, a);
      WithinIsPreorder(b, b, b);
      if IsWithin(a, b) {
        assert IsWithin(a, a) && IsWithin(a, b);
      } else {
        assert IsWithin(b, a) && IsWithin(b, b);
      }
    }
    if x :| IsWithin(x, a) && IsWithin(x, b) {
      SharedDescendant(a, b, x);
    }
  }

  lemma OverlapSymmetric(a: seq<string>, b: seq<string>)
    ensures ScopesOverlap(a, b) <==> ScopesOverlap(b, a)
  {
    if ScopesOverlap(a, b) {
      var i, j :| 0 <= i < |a| && 0 <= j < |b| && PathsOverlap(a[i], b[j]);
      assert PathsOverlap(b[j], a[i]);
    }
    if ScopesOverlap(b, a) {
      var i, j :| 0 <= i < |b| && 0 <= j < |a| && PathsOverlap(b[i], a[j]);
      assert PathsOverlap(a[j], b[i]);
    }
  }

  /** A candidate has no conflicts exactly when it overlaps no active lane. */
  lemma {:induction false} NoConflictsExactly(candidate: seq<string>, active: seq<ActiveScope>)
    ensures ActiveScopeConflicts(candidate, active) == [] <==>
      forall i | 0 <= i < |active| :: !ScopesOverlap(candidate, active[i].paths)
  {
    if candidate != [] && active != [] {
      NoConflictsExactly(candidate, active[1..]);
      forall i | 0 <= i < |active|
        ensures active[i] == if i == 0 then active[0] else active[1..][i - 1]
      {
      }
      if forall i | 0 <= i < |active| :: !ScopesOverlap(candidate, active[i].paths) {
        forall i | 0 <= i < |active[1..]| ensures !ScopesOverlap(candidate, active[1..][i].paths) {
          assert active[1..][i] == active[i + 1];
        }
      }
    }
  }

  /** The lanes named are the ones whose scope shares a path with the candidate's. */
  lemma {:induction false} ConflictsExactly(candidate: seq<string>, active: seq<ActiveScope>, laneId: string)
    ensures laneId in ActiveScopeConflicts(candidate, active) <==>
      exists scope :: scope in active && scope.laneId == laneId && ScopesOverlap(candidate, scope.paths)
  {
    if candidate != [] && active != [] {
      ConflictsExactly(candidate, active[1..], laneId);
      if ScopesOverlap(candidate, active[0].paths) && active[0].laneId == laneId {
        assert active[0] in active;
      }
    }
  }

  // ---- paths as the segments between their slashes ----

  /** The pieces of a path between its slashes; one that starts with a slash has an empty first piece. */
  function Segments(p: string): (r: seq<string>)
    ensures r != []
  {
    if p == "" then [""]
    else
      var rest := Segments(p[1..]);
      if p[0] == '/' then [""] + rest else [[p[0]] + rest[0]] + rest[1..]
  }

  /** A slash between two texts parts their segments. */
  lemma {:induction false} SegmentsPart(a: string, b: string)
    ensures Segments(a + "/" + b) == Segments(a) + Segments(b)
  {
    var s := a + "/" + b;
    if a == "" {
      assert s[1..] == b;
    } else {
      assert s[1..] == a[1..] + "/" + b;
      SegmentsPart(a[1..], b);
    }
  }

  lemma {:induction false} SegmentsBelow(r: string, p: string)
    requires Segments(r) <= Segments(p)
    ensures r == p || r + "/" <= p
  {
    if r == "" {
      assert p != "" ==> p == "/" + p[1..];
    } else {
      assert p != "";
      assert Segments(p)[0] == Segments(r)[0];
      var sp, sr := Segments(p[1..]), Segments(r[1..]);
      if r[0] != '/' {
        assert r[0] == Segments(r)[0][0] == p[0];
        assert Segments(r)[0][1..] == sr[0] && Segments(p)[0][1..] == sp[0];
      }
      assert Segments(r)[1..] <= Segments(p)[1..];
      assert sr == [sr[0]] + sr[1..] && sp == [sp[0]] + sp[1..];
      assert sr <= sp;
      SegmentsBelow(r[1..], p[1..]);
      assert r == [r[0]] + r[1..] && p == [p[0]] + p[1..];
    }
  }

  /** Containment is by whole segments: a path lies within a root whose segments begin its own. */
  lemma WithinIsBySegments(path: string, root: string)
    ensures IsWithin(path, root) <==> Segments(Norm(root)) <= Segments(Norm(path))
  {
    var p, r := Norm(path), Norm(root);
    if r + "/" <= p {
      var below := p[|r| + 1..];
      assert p == r + "/" + below;
      SegmentsPart(r, below);
    }
    if Segments(r) <= Segments(p) {
      SegmentsBelow(r, p);
    }
  }

  /** Every path below a root lies within it, so the two overlap however the root is written. */
  lemma BelowIsWithin(root: string, below: string)
    ensures IsWithin(Norm(root) + "/" + below, root)
    ensures PathsOverlap(Norm(root) + "/" + below, root) && PathsOverlap(root, Norm(root) + "/" + below)
  {
    var r, p := Norm(root), Norm(root) + "/" + below;
    var n := Norm(p);
    if |n| > |r| {
      assert r + "/" == p[..|r| + 1] == n[..|r| + 1];
    } else {
      assert n == r[..|n|] && p[..|r|] == r;
      assert n == r;
    }
  }

  // ---- jails ----

  /** The workspace a lane gets under a root when it names no path. */
  function Jail(root: string, laneId: string): string { Norm(root) + "/" + laneId }

  predicate PlainName(s: string) { s != "" && '/' !in s }

  predicate AllWithin(paths: seq<string>, root: string) {
    forall i | 0 <= i < |paths| :: IsWithin(paths[i], root)
  }

  lemma JailsAreDisjoint(root: string, a: string, b: string)
    requires PlainName(a) && PlainName(b) && a != b
    ensures !IsWithin(Jail(root, a), Jail(root, b))
  {
    var ja, jb, base := Jail(root, a), Jail(root, b), Norm(root) + "/";
    assert a[|a| - 1] in a && b[|b| - 1] in b;
    assert ja[|ja| - 1] != '/' && jb[|jb| - 1] != '/';
    assert ja[|base|..] == a && jb[|base|..] == b;
    assert |jb| < |ja| ==> ja[|jb|] == a[|jb| - |base|] != '/';
  }

  /** Lanes confined to their own jails of one root can never conflict, whatever they name inside. */
  lemma JailedScopesNeverOverlap(root: string, a: string, b: string, pa: seq<string>, pb: seq<string>)
    requires PlainName(a) && PlainName(b) && a != b
    requires AllWithin(pa, Jail(root, a)) && AllWithin(pb, Jail(root, b))
    ensures !ScopesOverlap(pa, pb)
  {
    if ScopesOverlap(pa, pb) {
      var i, j :| 0 <= i < |pa| && 0 <= j < |pb| && PathsOverlap(pa[i], pb[j]);
      var ja, jb := Jail(root, a), Jail(root, b);
      WithinIsPreorder(pa[i], pb[j], jb);
      WithinIsPreorder(pb[j], pa[i], ja);
      SharedDescendant(ja, jb, if IsWithin(pa[i], pb[j]) then pa[i] else pb[j]);
      JailsAreDisjoint(root, a, b);
      JailsAreDisjoint(root, b, a);
    }
  }
}
