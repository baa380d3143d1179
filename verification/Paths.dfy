/** Lexical path resolution (`resolve` in `affected.rs`). */
module Paths {
  import opened Outcome

  /** The pieces of `s` between separators; never empty. */
  function Split(s: string, separators: set<char>): (parts: seq<string>)
    ensures parts != []
  {
    if s == "" then [""]
    else
      var rest := Split(s[1..], separators);
      if s[0] in separators then [""] + rest else [[s[0]] + rest[0]] + rest[1..]
  }

  function Join(parts: seq<string>): string {
    if parts == [] then ""
    else if |parts| == 1 then parts[0]
    else parts[0] + "/" + Join(parts[1..])
  }

  function NonEmpty(parts: seq<string>): seq<string> {
    if parts == [] then []
    else (if parts[0] == "" then [] else [parts[0]]) + NonEmpty(parts[1..])
  }

  /** The directories of `dir`, outermost first. */
  function Segments(dir: string): seq<string> {
    NonEmpty(Split(dir, {'/'}))
  }

  /** Follow `steps` from the directory `at`; None once they leave the workspace. */
  function Walk(at: seq<string>, steps: seq<string>): Option<seq<string>>
    decreases |steps|
  {
    if steps == [] then Some(at)
    else if steps[0] == "" || steps[0] == "." then Walk(at, steps[1..])
    else if steps[0] == ".." then
      if at == [] then None else Walk(at[..|at| - 1], steps[1..])
    else Walk(at + [steps[0]], steps[1..])
  }

  const SEPARATORS := {'/', '\\'}

  function Resolve(dir: string, relative: string): Option<string> {
    var end := Walk(Segments(dir), Split(relative, SEPARATORS));
    if end == None then None else Some(Join(end.value))
  }

  /** `resolve`: a stack of directories, popped by `..`. */
  method ResolveInPlace(dir: string, relative: string) returns (target: Option<string>)
    ensures target == Resolve(dir, relative)
  {
    var parts := Segments(dir);
    var steps := Split(relative, SEPARATORS);
    assert steps[0..] == steps;
    for i := 0 to |steps|
      invariant Walk(Segments(dir), steps) == Walk(parts, steps[i..])
    {
      assert steps[i..][0] == steps[i] && steps[i..][1..] == steps[i + 1..];
      match steps[i]
      case "" =>
      case "." =>
      case ".." =>
        if parts == [] {
          return None;
        }
        parts := parts[..|parts| - 1];
      case other =>
        parts := parts + [other];
    }
    return Some(Join(parts));
  }

  // ----- Composition -----

  /** Pieces that survive being joined and split again. */
  ghost predicate Proper(parts: seq<string>) {
    forall p :: p in parts ==> p != "" && '/' !in p
  }

  lemma {:induction false} SplitConcat(a: string, c: char, b: string, separators: set<char>)
    requires c in separators
    ensures Split(a + [c] + b, separators) == Split(a, separators) + Split(b, separators)
    decreases |a|
  {
    var whole := a + [c] + b;
    if a == "" {
      assert whole[1..] == b;
    } else {
      assert whole[1..] == a[1..] + [c] + b;
      SplitConcat(a[1..], c, b, separators);
    }
  }

  lemma {:induction false} SplitPart(p: string, separators: set<char>)
    requires forall c :: c in separators ==> c !in p
    ensures Split(p, separators) == [p]
    decreases |p|
  {
    if p != "" {
      assert p[0] in p;
      SplitPart(p[1..], separators);
      assert [p[0]] + p[1..] == p;
    }
  }

  lemma {:induction false} SplitPieces(s: string, separators: set<char>)
    ensures forall p, c :: p in Split(s, separators) && c in separators ==> c !in p
    decreases |s|
  {
    if s != "" {
      SplitPieces(s[1..], separators);
      assert Split(s[1..], separators)[0] in Split(s[1..], separators);
    }
  }

  lemma {:induction false} NonEmptyConcat(a: seq<string>, b: seq<string>)
    ensures NonEmpty(a + b) == NonEmpty(a) + NonEmpty(b)
    decreases |a|
  {
    if a == [] {
      assert a + b == b;
    } else {
      assert (a + b)[1..] == a[1..] + b;
      NonEmptyConcat(a[1..], b);
    }
  }

  lemma {:induction false} NonEmptyPieces(parts: seq<string>)
    ensures forall p :: p in NonEmpty(parts) <==> p in parts && p != ""
    decreases |parts|
  {
    if parts != [] {
      NonEmptyPieces(parts[1..]);
    }
  }

  /** Joining proper directories and splitting them again gives them back. */
  lemma {:induction false} SegmentsOfJoin(parts: seq<string>)
    requires Proper(parts)
    ensures Segments(Join(parts)) == parts
    decreases |parts|
  {
    if parts != [] {
      assert parts[0] in parts;
      SplitPart(parts[0], {'/'});
      assert NonEmpty([parts[0]]) == parts[..1] by {
        assert [parts[0]][1..] == [];
      }
      if |parts| > 1 {
        SegmentsOfJoin(parts[1..]);
        SplitConcat(parts[0], '/', Join(parts[1..]), {'/'});
        NonEmptyConcat([parts[0]], Split(Join(parts[1..]), {'/'}));
      }
    }
  }

  lemma SegmentsAreProper(dir: string)
    ensures Proper(Segments(dir))
  {
    SplitPieces(dir, {'/'});
    NonEmptyPieces(Split(dir, {'/'}));
  }

  lemma {:induction false} WalkKeepsProper(at: seq<string>, steps: seq<string>)
    requires Proper(at) && forall p :: p in steps ==> '/' !in p
    ensures Walk(at, steps).Some? ==> Proper(Walk(at, steps).value)
    decreases |steps|
  {
    if steps != [] {
      assert steps[0] in steps;
      if steps[0] == "" || steps[0] == "." {
        WalkKeepsProper(at, steps[1..]);
      } else if steps[0] == ".." {
        if at != [] {
          WalkKeepsProper(at[..|at| - 1], steps[1..]);
        }
      } else {
        WalkKeepsProper(at + [steps[0]], steps[1..]);
      }
    }
  }

  lemma {:induction false} WalkConcat(at: seq<string>, a: seq<string>, b: seq<string>)
    ensures Walk(at, a + b) == if Walk(at, a) == None then None else Walk(Walk(at, a).value, b)
    decreases |a|
  {
    if a == [] {
      assert a + b == b;
    } else {
      assert (a + b)[1..] == a[1..] + b;
      if a[0] == "" || a[0] == "." {
        WalkConcat(at, a[1..], b);
      } else if a[0] == ".." {
        if at != [] {
          WalkConcat(at[..|at| - 1], a[1..], b);
        }
      } else {
        WalkConcat(at + [a[0]], a[1..], b);
      }
    }
  }

  /** Resolving in two steps is resolving the concatenated path, as long as the
      first step stays inside the workspace. */
  lemma ResolveComposes(dir: string, a: string, b: string)
    requires Resolve(dir, a).Some?
    ensures Resolve(Resolve(dir, a).value, b) == Resolve(dir, a + "/" + b)
  {
    var first := Split(a, SEPARATORS);
    SegmentsAreProper(dir);
    SplitPieces(a, SEPARATORS);
    WalkKeepsProper(Segments(dir), first);
    SegmentsOfJoin(Walk(Segments(dir), first).value);
    SplitConcat(a, '/', b, SEPARATORS);
    WalkConcat(Segments(dir), first, Split(b, SEPARATORS));
  }

  // ----- Shape and failure -----

  ghost predicate Normal(parts: seq<string>) {
    forall p :: p in parts ==> p != "" && p != "." && p != ".."
  }

  lemma {:induction false} WalkKeepsNormal(at: seq<string>, steps: seq<string>)
    requires Normal(at)
    ensures Walk(at, steps).Some? ==> Normal(Walk(at, steps).value)
    decreases |steps|
  {
    if steps != [] {
      if steps[0] == "" || steps[0] == "." {
        WalkKeepsNormal(at, steps[1..]);
      } else if steps[0] == ".." {
        if at != [] {
          var up := at[..|at| - 1];
          assert forall p :: p in up ==> p in at;
          WalkKeepsNormal(up, steps[1..]);
        }
      } else {
        WalkKeepsNormal(at + [steps[0]], steps[1..]);
      }
    }
  }

  /** From a normalised directory, resolution yields a normalised path. */
  lemma ResolveNormalises(dir: string, relative: string)
    requires Normal(Segments(dir)) && Resolve(dir, relative).Some?
    ensures Normal(Segments(Resolve(dir, relative).value))
  {
    var steps := Split(relative, SEPARATORS);
    SegmentsAreProper(dir);
    SplitPieces(relative, SEPARATORS);
    WalkKeepsProper(Segments(dir), steps);
    WalkKeepsNormal(Segments(dir), steps);
    SegmentsOfJoin(Walk(Segments(dir), steps).value);
  }

  /** How many directories deeper `steps` lead. */
  function Descent(steps: seq<string>): int {
    if steps == [] then 0
    else
      (if steps[0] == "" || steps[0] == "." then 0 else if steps[0] == ".." then -1 else 1) + Descent(steps[1..])
  }

  ghost predicate Climbs(depth: int, steps: seq<string>) {
    exists k :: 0 <= k <= |steps| && depth + Descent(steps[..k]) < 0
  }

  lemma ClimbsStep(depth: int, steps: seq<string>)
    requires steps != [] && depth >= 0
    ensures Climbs(depth, steps) <==> Climbs(depth + Descent(steps[..1]), steps[1..])
  {
    assert steps[..1][1..] == [];
    if k :| 0 <= k <= |steps| && depth + Descent(steps[..k]) < 0 {
      assert k > 0 && steps[..k][1..] == steps[1..][..k - 1];
      assert 0 <= k - 1 <= |steps[1..]| && depth + Descent(steps[..1]) + Descent(steps[1..][..k - 1]) < 0;
    }
    if k :| 0 <= k <= |steps[1..]| && depth + Descent(steps[..1]) + Descent(steps[1..][..k]) < 0 {
      assert steps[..k + 1][1..] == steps[1..][..k];
      assert 0 <= k + 1 <= |steps| && depth + Descent(steps[..k + 1]) < 0;
    }
  }

  /** Resolution fails exactly when some prefix of the path climbs above the root. */
  lemma {:induction false} WalkFailsExactly(at: seq<string>, steps: seq<string>)
    ensures Walk(at, steps) == None <==> Climbs(|at|, steps)
    ensures Walk(at, steps).Some? ==> |Walk(at, steps).value| == |at| + Descent(steps)
    decreases |steps|
  {
    if steps == [] {
      assert forall k :: 0 <= k <= |steps| ==> Descent(steps[..k]) == 0;
    } else {
      ClimbsStep(|at|, steps);
      assert steps[..1][1..] == [];
      if steps[0] == "" || steps[0] == "." {
        WalkFailsExactly(at, steps[1..]);
      } else if steps[0] == ".." {
        if at != [] {
          WalkFailsExactly(at[..|at| - 1], steps[1..]);
        } else {
          assert steps[..1] == [".."] && 0 + Descent(steps[..1]) < 0;
        }
      } else {
        WalkFailsExactly(at + [steps[0]], steps[1..]);
      }
    }
  }
}
