/**
  Pruning the selected test paths before a run (the start of
  MayaTestRunnerDialog.run_selected_tests in mayatest/mayaunittestui.py): a path
  is dropped when one of its dotted ancestors is selected too, so that no test
  runs twice.
*/
module PathSelection {

  /** `s.split(".")`, character by character: a dot starts a new piece. */
  function Split(s: string): (r: seq<string>)
    ensures |r| >= 1
    decreases |s|
  {
    if s == [] then [""]
    else
      var rest := Split(s[1..]);
      if s[0] == '.' then [""] + rest else [[s[0]] + rest[0]] + rest[1..]
  }

  /** `".".join(parts)`. */
  function Join(parts: seq<string>): string
    decreases |parts|
  {
    if |parts| == 0 then ""
    else if |parts| == 1 then parts[0]
    else parts[0] + "." + Join(parts[1..])
  }

  /** No piece of a split holds a dot. */
  lemma {:induction false} SplitPiecesDotFree(s: string)
    ensures forall i :: 0 <= i < |Split(s)| ==> '.' !in Split(s)[i]
    decreases |s|
  {
    if s != [] {
      SplitPiecesDotFree(s[1..]);
    }
  }

  lemma JoinCons(a: string, b: seq<string>)
    requires b != []
    ensures Join([a] + b) == a + "." + Join(b)
  {
    assert ([a] + b)[1..] == b;
  }

  /** A character put before the first piece goes to the front of the join. */
  lemma JoinPrepend(c: char, parts: seq<string>)
    requires parts != []
    ensures Join([[c] + parts[0]] + parts[1..]) == [c] + Join(parts)
  {
    if |parts| > 1 {
      JoinCons([c] + parts[0], parts[1..]);
    }
  }

  /** Joining the pieces of a split gives the string back. */
  lemma {:induction false} JoinSplit(s: string)
    ensures Join(Split(s)) == s
    decreases |s|
  {
    if s != [] {
      var rest := Split(s[1..]);
      JoinSplit(s[1..]);
      if s[0] == '.' {
        JoinCons("", rest);
      } else {
        JoinPrepend(s[0], rest);
      }
      assert s == [s[0]] + s[1..];
    }
  }

  /** Joining two non-empty lists of pieces puts one dot between their joins. */
  lemma {:induction false} JoinAppend(a: seq<string>, b: seq<string>)
    requires a != [] && b != []
    ensures Join(a + b) == Join(a) + "." + Join(b)
    decreases |a|
  {
    if |a| > 1 {
      assert (a + b)[1..] == a[1..] + b;
      JoinAppend(a[1..], b);
    } else {
      assert (a + b)[1..] == b;
    }
  }

  /** Splitting at a dot splits the two sides independently. */
  lemma {:induction false} SplitAround(p: string, q: string)
    ensures Split(p + "." + q) == Split(p) + Split(q)
    decreases |p|
  {
    var s := p + "." + q;
    if p == [] {
      assert s[1..] == q;
    } else {
      assert s[1..] == p[1..] + "." + q;
      SplitAround(p[1..], q);
    }
  }

  /** A dot-free string is one piece. */
  lemma {:induction false} SplitDotFree(x: string)
    requires '.' !in x
    ensures Split(x) == [x]
    decreases |x|
  {
    if x != [] {
      assert '.' !in x[1..] by {
        forall k | 0 <= k < |x[1..]| ensures x[1..][k] != '.' {
          assert x[1..][k] == x[k + 1];
        }
      }
      SplitDotFree(x[1..]);
      assert x == [x[0]] + x[1..];
    }
  }

  /** Splitting a join of dot-free pieces gives the pieces back. */
  lemma {:induction false} SplitJoin(parts: seq<string>)
    requires parts != []
    requires forall i :: 0 <= i < |parts| ==> '.' !in parts[i]
    ensures Split(Join(parts)) == parts
    decreases |parts|
  {
    SplitDotFree(parts[0]);
    if |parts| > 1 {
      var rest := parts[1..];
      SplitJoin(rest);
      SplitAround(parts[0], Join(rest));
      assert parts == [parts[0]] + rest;
    }
  }

  /** `p` names a package, module or class that contains `s`: `s` starts with `p` and a dot. */
  predicate IsDotPrefix(p: string, s: string) {
    |p| < |s| && s[..|p|] == p && s[|p|] == '.'
  }

  lemma DotPrefixTransitive(a: string, b: string, c: string)
    requires IsDotPrefix(a, b) && IsDotPrefix(b, c)
    ensures IsDotPrefix(a, c)
  {
    assert c[..|a|] == c[..|b|][..|a|];
  }

  /** `".".join(tokens[0 : i + 1])`: the path the inner loop of run_selected_tests tries at `i`. */
  function AncestorPath(tokens: seq<string>, i: nat): string
    requires i < |tokens|
  {
    Join(tokens[..i + 1])
  }

  /** The inner loop's search: some `AncestorPath(tokens, i)`, `i < len(tokens) - 1`, is selected. */
  predicate HasSelectedAncestor(paths: seq<string>, path: string) {
    var tokens := Split(path);
    exists i: nat :: i < |tokens| - 1 && AncestorPath(tokens, i) in paths
  }

  /** Each path the loop tries is a dot-prefix of the path. */
  lemma AncestorIsDotPrefix(s: string, i: nat)
    requires i < |Split(s)| - 1
    ensures IsDotPrefix(Join(Split(s)[..i + 1]), s)
  {
    var t := Split(s);
    assert t == t[..i + 1] + t[i + 1..];
    JoinAppend(t[..i + 1], t[i + 1..]);
    JoinSplit(s);
    var a := Join(t[..i + 1]);
    assert s == a + "." + Join(t[i + 1..]);
    assert s[..|a|] == a;
  }

  /** Each dot-prefix of the path is one of the paths the loop tries. */
  lemma DotPrefixIsAncestor(p: string, s: string) returns (i: nat)
    requires IsDotPrefix(p, s)
    ensures i < |Split(s)| - 1 && Join(Split(s)[..i + 1]) == p
  {
    var q := s[|p| + 1..];
    assert s == p + "." + q;
    SplitAround(p, q);
    i := |Split(p)| - 1;
    assert Split(s)[..i + 1] == Split(p);
    JoinSplit(p);
  }

  /** The loop's test is exactly "some selected path is a dot-prefix of this one". */
  lemma HasSelectedAncestorIff(paths: seq<string>, path: string)
    ensures HasSelectedAncestor(paths, path) <==> exists p :: p in paths && IsDotPrefix(p, path)
  {
    var t := Split(path);
    if HasSelectedAncestor(paths, path) {
      var i: nat :| i < |t| - 1 && AncestorPath(t, i) in paths;
      AncestorIsDotPrefix(path, i);
    }
    if p :| p in paths && IsDotPrefix(p, path) {
      var i := DotPrefixIsAncestor(p, path);
      assert AncestorPath(t, i) in paths;
    }
  }

  /** The paths of `ps`, in order, that have no selected ancestor in `sel`. */
  function Pruned(sel: seq<string>, ps: seq<string>): seq<string>
    decreases |ps|
  {
    if ps == [] then []
    else Pruned(sel, ps[..|ps| - 1]) + (if HasSelectedAncestor(sel, ps[|ps| - 1]) then [] else [ps[|ps| - 1]])
  }

  /** run_selected_tests' pruning: `test_paths` from the selected `paths`. */
  method PrunePaths(paths: seq<string>) returns (testPaths: seq<string>)
    ensures testPaths == Pruned(paths, paths)
  {
    testPaths := [];
    for k := 0 to |paths|
      invariant testPaths == Pruned(paths, paths[..k])
    {
      var path := paths[k];
      var tokens := Split(path);
      var found := false;
      for i := 0 to |tokens| - 1
        invariant !found
        invariant forall j: nat :: j < i ==> AncestorPath(tokens, j) !in paths
      {
        var p := AncestorPath(tokens, i);
        if p in paths {
          found := true;
          break;
        }
      }
      assert found <==> HasSelectedAncestor(paths, path);
      if !found {
        testPaths := testPaths + [path];
      }
      assert paths[..k + 1][..k] == paths[..k];
    }
    assert paths[..|paths|] == paths;
  }

  // ----- What the pruning promises -----

  /** A path is kept exactly when it is selected and none of its dot-prefixes is. */
  lemma {:induction false} PrunedMembers(sel: seq<string>, ps: seq<string>, x: string)
    ensures x in Pruned(sel, ps) <==> x in ps && !HasSelectedAncestor(sel, x)
    decreases |ps|
  {
    if ps != [] {
      PrunedMembers(sel, ps[..|ps| - 1], x);
      assert ps == ps[..|ps| - 1] + [ps[|ps| - 1]];
    }
  }

  /** Pruning keeps the selection order: it distributes over concatenation. */
  lemma {:induction false} PrunedAppend(sel: seq<string>, a: seq<string>, b: seq<string>)
    ensures Pruned(sel, a + b) == Pruned(sel, a) + Pruned(sel, b)
    decreases |b|
  {
    if b != [] {
      var b' := b[..|b| - 1];
      assert (a + b)[..|a + b| - 1] == a + b';
      PrunedAppend(sel, a, b');
    } else {
      assert a + b == a;
    }
  }

  /** No kept path lies inside another kept path, so no test is run twice. */
  lemma NoNestedKept(paths: seq<string>, x: string, y: string)
    requires x in Pruned(paths, paths) && y in Pruned(paths, paths)
    ensures !IsDotPrefix(x, y)
  {
    PrunedMembers(paths, paths, x);
    PrunedMembers(paths, paths, y);
    HasSelectedAncestorIff(paths, y);
  }

  /** Every selected path is kept or lies inside a kept path, so no selected test is lost. */
  lemma {:induction false} SelectedCovered(paths: seq<string>, y: string)
    requires y in paths
    ensures y in Pruned(paths, paths) || exists x :: x in Pruned(paths, paths) && IsDotPrefix(x, y)
    decreases |y|
  {
    PrunedMembers(paths, paths, y);
    if y !in Pruned(paths, paths) {
      HasSelectedAncestorIff(paths, y);
      var p :| p in paths && IsDotPrefix(p, y);
      SelectedCovered(paths, p);
      if p !in Pruned(paths, paths) {
        var x :| x in Pruned(paths, paths) && IsDotPrefix(x, p);
        DotPrefixTransitive(x, p, y);
      }
    }
  }

  /** Pruning an already pruned selection changes nothing. */
  lemma PruneIdempotent(paths: seq<string>)
    ensures Pruned(Pruned(paths, paths), Pruned(paths, paths)) == Pruned(paths, paths)
  {
    var kept := Pruned(paths, paths);
    forall x | x in kept ensures !HasSelectedAncestor(kept, x) {
      PrunedMembers(paths, paths, x);
      HasSelectedAncestorIff(paths, x);
      HasSelectedAncestorIff(kept, x);
      forall p | p in kept ensures !IsDotPrefix(p, x) {
        NoNestedKept(paths, p, x);
      }
    }
    PrunedAll(kept, kept);
  }

  /** Pruning keeps a list whole when none of its paths has a selected ancestor. */
  lemma {:induction false} PrunedAll(sel: seq<string>, ps: seq<string>)
    requires forall x :: x in ps ==> !HasSelectedAncestor(sel, x)
    ensures Pruned(sel, ps) == ps
    decreases |ps|
  {
    if ps != [] {
      PrunedAll(sel, ps[..|ps| - 1]);
      assert ps == ps[..|ps| - 1] + [ps[|ps| - 1]];
    }
  }
}
