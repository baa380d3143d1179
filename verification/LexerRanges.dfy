/** The shape of the ranges the lexer returns. */
module LexerRanges {
  import opened Outcome
  import opened Lexer

  /** The places the scan looks at, in order. */
  function Visited(s: string, i: nat): seq<nat>
    requires i <= |s|
    decreases |s| - i
  {
    if i == |s| then [] else [i] + Visited(s, Next(s, i))
  }

  /** The `n`-th place of `v`, or the end of the source. */
  function At(s: string, v: seq<nat>, n: nat): nat {
    if n < |v| then v[n] else |s|
  }

  ghost predicate Trail(s: string, v: seq<nat>) {
    && At(s, v, 0) == 0
    && (forall n :: 0 <= n < |v| ==> v[n] < |s|)
    && (forall n: nat :: n < |v| ==> Follows(s, v, n))
  }

  ghost predicate Follows(s: string, v: seq<nat>, n: nat)
    requires n < |v| && v[n] < |s|
  {
    At(s, v, n + 1) == Next(s, v[n])
  }

  lemma {:induction false} VisitedSteps(s: string, i: nat)
    requires i <= |s|
    ensures
      var v := Visited(s, i);
      && At(s, v, 0) == i
      && (forall n :: 0 <= n < |v| ==> v[n] < |s|)
      && (forall n: nat :: n < |v| ==> Follows(s, v, n))
    decreases |s| - i
  {
    if i < |s| {
      var rest := Visited(s, Next(s, i));
      VisitedSteps(s, Next(s, i));
      var v := [i] + rest;
      forall n: nat | n < |v|
        ensures v[n] < |s| && Follows(s, v, n)
      {
        if n > 0 {
          assert v[n] == rest[n - 1] && At(s, v, n + 1) == At(s, rest, n);
          assert Follows(s, rest, n - 1);
        }
      }
    }
  }

  lemma VisitedIsTrail(s: string)
    ensures Trail(s, Visited(s, 0))
  {
    VisitedSteps(s, 0);
  }

  lemma {:induction false} TrailAscends(s: string, v: seq<nat>, x: nat, y: nat)
    requires Trail(s, v) && x < y < |v|
    ensures v[x] < v[y]
    decreases y
  {
    hide TokenAt, Next;
    assert Follows(s, v, y - 1);
    if x < y - 1 {
      TrailAscends(s, v, x, y - 1);
    }
  }

  // ----- Matching braces -----

  function Delta(s: string, i: nat): int
    requires i < |s|
  {
    match TokenAt(s, i)
    case OpenBrace => 1
    case CloseBrace => -1
    case _ => 0
  }

  /** Code braces opened minus closed before the `k`-th place. */
  ghost function Net(s: string, v: seq<nat>, k: nat): int
    requires Trail(s, v) && k <= |v|
  {
    if k == 0 then 0 else Net(s, v, k - 1) + Delta(s, v[k - 1])
  }

  ghost predicate Opens(s: string, v: seq<nat>, x: nat)
    requires Trail(s, v)
  {
    x < |v| && TokenAt(s, v[x]).OpenBrace?
  }

  /** The brace at place `x` is not closed before place `n`. */
  ghost predicate StillOpen(s: string, v: seq<nat>, n: nat, x: nat)
    requires Trail(s, v) && n <= |v|
  {
    && x < n && Opens(s, v, x)
    && forall k :: x < k <= n ==> Net(s, v, k) >= Net(s, v, x + 1)
  }

  /** Places `x` and `y` hold an opening code brace and its closing one: what lies
      between is balanced. */
  ghost predicate Matched(s: string, v: seq<nat>, x: nat, y: nat)
    requires Trail(s, v)
  {
    && y < |v| && TokenAt(s, v[y]).CloseBrace?
    && StillOpen(s, v, y, x)
    && Net(s, v, y) == Net(s, v, x + 1)
  }

  lemma NetStep(s: string, v: seq<nat>, n: nat)
    requires Trail(s, v) && n < |v|
    ensures Net(s, v, n + 1) == Net(s, v, n) + Delta(s, v[n])
  {
  }

  /** Two matched pairs are disjoint or one lies inside the other. */
  lemma MatchedIsLaminar(s: string, v: seq<nat>, x1: nat, y1: nat, x2: nat, y2: nat)
    requires Trail(s, v) && Matched(s, v, x1, y1) && Matched(s, v, x2, y2) && x1 <= x2
    ensures (x1 == x2 && y1 == y2) || y1 < x2 || (x1 < x2 && y2 < y1)
  {
    hide TokenAt, Trail, Net;
    NetStep(s, v, y1);
    NetStep(s, v, y2);
    NetStep(s, v, x2);
  }

  // ----- What is announced -----

  /** The brace announced by the last `#[cfg(test)]` before the `k`-th place. */
  ghost function LastTest(s: string, v: seq<nat>, k: nat): Option<nat>
    requires Trail(s, v) && k <= |v|
  {
    if k == 0 then None
    else if TokenAt(s, v[k - 1]).TestAttr? then
      var item := TestModItem(s, v[k - 1] + |TEST|);
      if item.Inline? then Some(item.brace) else None
    else LastTest(s, v, k - 1)
  }

  /** The brace announced by the last `#[ignore]` before the `k`-th place. */
  ghost function LastIgnore(s: string, v: seq<nat>, k: nat): Option<nat>
    requires Trail(s, v) && k <= |v|
  {
    if k == 0 then None
    else if TokenAt(s, v[k - 1]).IgnoreAttr? then IgnoredBrace(s, TokenAt(s, v[k - 1]).end + 1)
    else LastIgnore(s, v, k - 1)
  }

  ghost function Declared(s: string, v: seq<nat>, k: nat): seq<string>
    requires Trail(s, v) && k <= |v|
  {
    if k == 0 then []
    else if TokenAt(s, v[k - 1]).TestAttr? && TestModItem(s, v[k - 1] + |TEST|).OutOfLine? then
      Declared(s, v, k - 1) + [TestModItem(s, v[k - 1] + |TEST|).name]
    else Declared(s, v, k - 1)
  }

  ghost predicate TestBody(s: string, v: seq<nat>, x: nat)
    requires Trail(s, v) && x < |v|
  {
    LastTest(s, v, x) == Some(v[x])
  }

  ghost predicate IgnoredBody(s: string, v: seq<nat>, x: nat)
    requires Trail(s, v) && x < |v|
  {
    !TestBody(s, v, x) && LastIgnore(s, v, x) == Some(v[x])
  }

  /** How the scan remembers the open brace at place `x`. */
  ghost function Remembered(s: string, v: seq<nat>, x: nat): Open
    requires Trail(s, v) && x < |v|
  {
    if TestBody(s, v, x) then Tracked(v[x], false)
    else if IgnoredBody(s, v, x) then Tracked(v[x], true)
    else Untracked
  }

  // ----- The loop invariant -----

  /** `xs` are the places of the braces still open at place `n`, outermost first. */
  ghost predicate Stacked(s: string, v: seq<nat>, n: nat, xs: seq<nat>)
    requires Trail(s, v) && n <= |v|
  {
    && (forall k, j :: 0 <= k < j < |xs| ==> xs[k] < xs[j])
    && (forall x :: x in xs <==> StillOpen(s, v, n, x))
    && (forall k :: 0 <= k < |xs| ==> xs[k] < n)
    && (forall k :: 0 < k < |xs| ==> Net(s, v, xs[k]) == Net(s, v, xs[k - 1] + 1))
    && (xs != [] ==> Net(s, v, n) == Net(s, v, xs[|xs| - 1] + 1))
  }

  ghost predicate Pair(s: string, v: seq<nat>, n: nat, ignored: bool, r: (nat, nat), x: nat, y: nat)
    requires Trail(s, v)
  {
    && y < n && Matched(s, v, x, y)
    && (if ignored then IgnoredBody(s, v, x) else TestBody(s, v, x))
    && r == (v[x], v[y] + 1)
  }

  ghost predicate Listed(s: string, v: seq<nat>, n: nat, ignored: bool, rs: seq<(nat, nat)>)
    requires Trail(s, v)
  {
    forall r :: r in rs <==> Paired(s, v, n, ignored, r)
  }

  ghost predicate Paired(s: string, v: seq<nat>, n: nat, ignored: bool, r: (nat, nat))
    requires Trail(s, v)
  {
    exists x: nat, y: nat :: Pair(s, v, n, ignored, r, x, y)
  }

  ghost predicate Scanned(s: string, v: seq<nat>, n: nat, xs: seq<nat>, t: Scan)
    requires Trail(s, v) && n <= |v|
  {
    && Stacked(s, v, n, xs)
    && |t.stack| == |xs|
    && (forall k :: 0 <= k < |xs| ==> t.stack[k] == Remembered(s, v, xs[k]))
    && (forall a :: a >= At(s, v, n) ==> (t.testBrace == Some(a) <==> LastTest(s, v, n) == Some(a)))
    && (forall a :: a >= At(s, v, n) ==> (t.ignoreBrace == Some(a) <==> LastIgnore(s, v, n) == Some(a)))
    && Listed(s, v, n, false, t.ranges)
    && Listed(s, v, n, true, t.ignored)
    && t.decls == Declared(s, v, n)
  }

  lemma NothingStacked(s: string, v: seq<nat>)
    requires Trail(s, v)
    ensures Scanned(s, v, 0, [], START)
  {
    hide TokenAt, Trail;
  }

  /** A step that is not a brace leaves the open braces alone. */
  lemma StackedPlain(s: string, v: seq<nat>, n: nat, xs: seq<nat>)
    requires Trail(s, v) && n < |v| && Stacked(s, v, n, xs)
    requires !TokenAt(s, v[n]).OpenBrace? && !TokenAt(s, v[n]).CloseBrace?
    ensures Stacked(s, v, n + 1, xs)
  {
    hide TokenAt, Trail, Net;
    NetStep(s, v, n);
    forall x: nat
      ensures StillOpen(s, v, n, x) <==> StillOpen(s, v, n + 1, x)
    {
      if StillOpen(s, v, n, x) {
        assert Net(s, v, n) >= Net(s, v, x + 1);
      }
      if StillOpen(s, v, n + 1, x) {
        assert x != n;
      }
    }
  }

  lemma StackedOpen(s: string, v: seq<nat>, n: nat, xs: seq<nat>)
    requires Trail(s, v) && n < |v| && Stacked(s, v, n, xs)
    requires TokenAt(s, v[n]).OpenBrace?
    ensures Stacked(s, v, n + 1, xs + [n])
  {
    hide TokenAt, Trail, Net;
    NetStep(s, v, n);
    forall x: nat
      ensures StillOpen(s, v, n + 1, x) <==> StillOpen(s, v, n, x) || x == n
    {
      if StillOpen(s, v, n, x) {
        assert Net(s, v, n) >= Net(s, v, x + 1);
      }
    }
  }

  /** Deeper open braces stand at strictly higher nets. */
  lemma {:induction false} NetsAscend(s: string, v: seq<nat>, n: nat, xs: seq<nat>, k: nat, j: nat)
    requires Trail(s, v) && n <= |v| && Stacked(s, v, n, xs) && k < j < |xs|
    ensures Net(s, v, xs[k] + 1) < Net(s, v, xs[j] + 1)
    decreases j
  {
    hide TokenAt, Trail, Net;
    assert xs[j] in xs && StillOpen(s, v, n, xs[j]);
    NetStep(s, v, xs[j]);
    if k < j - 1 {
      NetsAscend(s, v, n, xs, k, j - 1);
    }
  }

  lemma StackedClose(s: string, v: seq<nat>, n: nat, xs: seq<nat>)
    requires Trail(s, v) && n < |v| && Stacked(s, v, n, xs)
    requires TokenAt(s, v[n]).CloseBrace?
    ensures Stacked(s, v, n + 1, if xs == [] then [] else xs[..|xs| - 1])
    ensures forall x :: Matched(s, v, x, n) <==> xs != [] && x == xs[|xs| - 1]
  {
    hide TokenAt, Trail, Net;
    NetStep(s, v, n);
    var rest := if xs == [] then [] else xs[..|xs| - 1];
    forall x: nat
      ensures StillOpen(s, v, n + 1, x) <==> x in rest
      ensures Matched(s, v, x, n) <==> xs != [] && x == xs[|xs| - 1]
    {
      if x in xs {
        var k :| 0 <= k < |xs| && xs[k] == x;
        if k < |xs| - 1 {
          NetsAscend(s, v, n, xs, k, |xs| - 1);
        }
      }
    }
    if rest != [] {
      NetStep(s, v, xs[|xs| - 1]);
      assert xs[|xs| - 1] in xs;
    }
  }

  lemma ListedPlain(s: string, v: seq<nat>, n: nat, ignored: bool, rs: seq<(nat, nat)>)
    requires Trail(s, v) && n < |v| && Listed(s, v, n, ignored, rs)
    requires forall x :: Matched(s, v, x, n) ==> !(if ignored then IgnoredBody(s, v, x) else TestBody(s, v, x))
    ensures Listed(s, v, n + 1, ignored, rs)
  {
    hide TokenAt, Trail, Matched, IgnoredBody, TestBody;
    var m := n + 1;
    forall r
      ensures r in rs <==> Paired(s, v, m, ignored, r)
    {
      if Paired(s, v, n, ignored, r) {
        var x: nat, y: nat :| Pair(s, v, n, ignored, r, x, y);
        assert Pair(s, v, m, ignored, r, x, y);
      }
      if Paired(s, v, m, ignored, r) {
        var x: nat, y: nat :| Pair(s, v, m, ignored, r, x, y);
        assert Pair(s, v, n, ignored, r, x, y);
      }
    }
  }

  lemma ListedMore(s: string, v: seq<nat>, n: nat, ignored: bool, rs: seq<(nat, nat)>, top: nat)
    requires Trail(s, v) && n < |v| && Listed(s, v, n, ignored, rs)
    requires forall x :: Matched(s, v, x, n) <==> x == top
    requires top < |v| && if ignored then IgnoredBody(s, v, top) else TestBody(s, v, top)
    ensures Listed(s, v, n + 1, ignored, rs + [(v[top], v[n] + 1)])
  {
    hide TokenAt, Trail, Matched, IgnoredBody, TestBody;
    var m := n + 1;
    var more := rs + [(v[top], v[n] + 1)];
    assert Pair(s, v, m, ignored, (v[top], v[n] + 1), top, n);
    forall r
      ensures r in more <==> Paired(s, v, m, ignored, r)
    {
      if Paired(s, v, n, ignored, r) {
        var x: nat, y: nat :| Pair(s, v, n, ignored, r, x, y);
        assert Pair(s, v, m, ignored, r, x, y);
      }
      if Paired(s, v, m, ignored, r) {
        var x: nat, y: nat :| Pair(s, v, m, ignored, r, x, y);
        if y < n {
          assert Pair(s, v, n, ignored, r, x, y);
        }
      }
    }
  }

  lemma AtAscends(s: string, v: seq<nat>, n: nat)
    requires Trail(s, v) && n < |v|
    ensures v[n] < At(s, v, n + 1) <= |s|
    ensures At(s, v, n + 1) == Next(s, v[n])
  {
    hide TokenAt;
    assert Follows(s, v, n);
  }

  lemma StackedBelow(s: string, v: seq<nat>, n: nat, xs: seq<nat>)
    requires Trail(s, v) && n <= |v| && Stacked(s, v, n, xs)
    ensures forall k :: 0 <= k < |xs| ==> xs[k] < n
  {
  }

  lemma OpenKeepsScanned(s: string, v: seq<nat>, n: nat, xs: seq<nat>, t: Scan) returns (ys: seq<nat>)
    requires Trail(s, v) && n < |v| && Scanned(s, v, n, xs, t) && TokenAt(s, v[n]).OpenBrace?
    ensures Scanned(s, v, n + 1, ys, Push(t, v[n]))
  {
    hide TokenAt, Trail, Stacked, Listed, TestModItem, IgnoredBrace;
    AtAscends(s, v, n);
    ys := xs + [n];
    StackedOpen(s, v, n, xs);
    NoClose(s, v, n, t);
  }

  lemma StepKeepsScanned(s: string, v: seq<nat>, n: nat, xs: seq<nat>, t: Scan) returns (ys: seq<nat>)
    requires Trail(s, v) && n < |v| && Scanned(s, v, n, xs, t)
    ensures Scanned(s, v, n + 1, ys, Look(s, v[n], t))
  {
    hide TokenAt, Trail, Stacked, Listed, TestModItem, IgnoredBrace;
    var i := v[n];
    AtAscends(s, v, n);
    match TokenAt(s, i)
    case OpenBrace =>
      ys := OpenKeepsScanned(s, v, n, xs, t);
    case CloseBrace =>
      ys := if xs == [] then [] else xs[..|xs| - 1];
      StackedClose(s, v, n, xs);
      StackedBelow(s, v, n, xs);
      CloseLists(s, v, n, xs, t);
    case _ =>
      ys := xs;
      StackedPlain(s, v, n, xs);
      NoClose(s, v, n, t);
  }

  lemma NoClose(s: string, v: seq<nat>, n: nat, t: Scan)
    requires Trail(s, v) && n < |v| && !TokenAt(s, v[n]).CloseBrace?
    requires Listed(s, v, n, false, t.ranges) && Listed(s, v, n, true, t.ignored)
    ensures Listed(s, v, n + 1, false, t.ranges) && Listed(s, v, n + 1, true, t.ignored)
  {
    hide TokenAt, Trail, Listed;
    ListedPlain(s, v, n, false, t.ranges);
    ListedPlain(s, v, n, true, t.ignored);
  }

  lemma CloseLists(s: string, v: seq<nat>, n: nat, xs: seq<nat>, t: Scan)
    requires Trail(s, v) && n < |v| && TokenAt(s, v[n]).CloseBrace?
    requires Stacked(s, v, n, xs) && |t.stack| == |xs|
    requires forall k :: 0 <= k < |xs| ==> xs[k] < n && t.stack[k] == Remembered(s, v, xs[k])
    requires Listed(s, v, n, false, t.ranges) && Listed(s, v, n, true, t.ignored)
    ensures
      var u := Pop(t, v[n]);
      Listed(s, v, n + 1, false, u.ranges) && Listed(s, v, n + 1, true, u.ignored)
  {
    hide TokenAt, Trail, Listed, Matched, Stacked, LastTest, LastIgnore;
    StackedClose(s, v, n, xs);
    if xs == [] {
      ListedPlain(s, v, n, false, t.ranges);
      ListedPlain(s, v, n, true, t.ignored);
    } else {
      var top := xs[|xs| - 1];
      assert t.stack[|xs| - 1] == Remembered(s, v, top);
      if TestBody(s, v, top) {
        ListedMore(s, v, n, false, t.ranges, top);
      } else {
        ListedPlain(s, v, n, false, t.ranges);
      }
      if IgnoredBody(s, v, top) {
        ListedMore(s, v, n, true, t.ignored, top);
      } else {
        ListedPlain(s, v, n, true, t.ignored);
      }
    }
  }

  lemma {:induction false} RunKeepsScanned(s: string, v: seq<nat>, n: nat, xs: seq<nat>, t: Scan)
      returns (ys: seq<nat>)
    requires Trail(s, v) && n <= |v| && Scanned(s, v, n, xs, t)
    requires At(s, v, n) <= |s|
    ensures Scanned(s, v, |v|, ys, Run(s, At(s, v, n), t))
    decreases |v| - n
  {
    hide TokenAt, Next, Look, Scanned, Trail;
    if n == |v| {
      ys := xs;
    } else {
      var us := StepKeepsScanned(s, v, n, xs, t);
      AtAscends(s, v, n);
      InRange(s, v, n);
      ys := RunKeepsScanned(s, v, n + 1, us, Look(s, v[n], t));
    }
  }

  lemma InRange(s: string, v: seq<nat>, n: nat)
    requires Trail(s, v) && n < |v|
    ensures v[n] < |s|
  {
  }

  // ----- The theorems -----

  /** The returned ranges are exactly the bodies between a code brace that the
      last `#[cfg(test)]` before it announces and the code brace matching it; the
      ignored ranges likewise for `#[ignore]`; the declarations are those of the
      out-of-line test modules, in order. */
  lemma RangesAreTestBodies(s: string)
    ensures
      var v := Visited(s, 0);
      var t := Run(s, 0, START);
      && Trail(s, v)
      && Listed(s, v, |v|, false, t.ranges)
      && Listed(s, v, |v|, true, t.ignored)
      && t.decls == Declared(s, v, |v|)
  {
    var v := Visited(s, 0);
    VisitedIsTrail(s);
    NothingStacked(s, v);
    var _ := RunKeepsScanned(s, v, 0, [], START);
  }

  predicate Laminar(a: (nat, nat), b: (nat, nat)) {
    || a.1 <= b.0
    || b.1 <= a.0
    || (a.0 <= b.0 && b.1 <= a.1)
    || (b.0 <= a.0 && a.1 <= b.1)
  }

  lemma PairsAreLaminar(s: string, v: seq<nat>, i: bool, a: (nat, nat), x1: nat, y1: nat,
                        j: bool, b: (nat, nat), x2: nat, y2: nat)
    requires Trail(s, v) && Pair(s, v, |v|, i, a, x1, y1) && Pair(s, v, |v|, j, b, x2, y2)
    requires x1 <= x2
    ensures Laminar(a, b)
  {
    MatchedIsLaminar(s, v, x1, y1, x2, y2);
    hide TokenAt, Net, TestBody, IgnoredBody;
    if y1 < x2 {
      TrailAscends(s, v, y1, x2);
    } else if x1 < x2 {
      TrailAscends(s, v, x1, x2);
      TrailAscends(s, v, y2, y1);
    }
  }

  /** A pair starts at an opening brace and ends just after a closing one. */
  lemma PairBounds(s: string, v: seq<nat>, i: bool, a: (nat, nat), x: nat, y: nat)
    requires Trail(s, v) && Pair(s, v, |v|, i, a, x, y)
    ensures a.0 < a.1 - 1 < |s| && s[a.0] == '{' && s[a.1 - 1] == '}'
  {
    hide StartsWith, RawStringOpen, IgnoreEnd, Net, TestBody, IgnoredBody;
    TrailAscends(s, v, x, y);
  }

  lemma PairedAreLaminar(s: string, v: seq<nat>, i: bool, a: (nat, nat), j: bool, b: (nat, nat))
    requires Trail(s, v) && Paired(s, v, |v|, i, a) && Paired(s, v, |v|, j, b)
    ensures a.0 < a.1 - 1 < |s| && s[a.0] == '{' && s[a.1 - 1] == '}'
    ensures Laminar(a, b)
  {
    var x1: nat, y1: nat :| Pair(s, v, |v|, i, a, x1, y1);
    var x2: nat, y2: nat :| Pair(s, v, |v|, j, b, x2, y2);
    hide Pair, Trail;
    PairBounds(s, v, i, a, x1, y1);
    if x1 <= x2 {
      PairsAreLaminar(s, v, i, a, x1, y1, j, b, x2, y2);
    } else {
      PairsAreLaminar(s, v, j, b, x2, y2, i, a, x1, y1);
    }
  }

  /** Every returned range, test body or ignored body, lies in bounds, runs from a
      `{` to just after a `}`, and is disjoint from or nested in every other. */
  lemma RangesAreLaminar(s: string, a: (nat, nat), b: (nat, nat))
    requires
      var t := Run(s, 0, START);
      a in t.ranges + t.ignored && b in t.ranges + t.ignored
    ensures a.0 < a.1 - 1 < |s| && s[a.0] == '{' && s[a.1 - 1] == '}'
    ensures Laminar(a, b)
  {
    RangesAreTestBodies(s);
    hide Run, Visited, Paired, Trail;
    var v := Visited(s, 0);
    var t := Run(s, 0, START);
    PairedAreLaminar(s, v, a !in t.ranges, a, b !in t.ranges, b);
  }
}
