/** Which workspace packages a change can affect (`affected.rs`). */
module Affected {
  import opened Outcome

  type Name = string

  datatype Member = Member(name: Name, dir: string)

  /** `package` reads `path` without a dependency edge; `compiled` reads become
      part of the package. */
  datatype Reference = Reference(path: string, package: Name, compiled: bool)

  datatype Workspace = Workspace(
    members: seq<Member>,
    dependencies: map<Name, set<Name>>,
    references: seq<Reference>,
    rootReaders: map<Name, bool>)

  datatype Widening = NoRoot | GlobalPath(path: string) | Orphan(path: string) | AllAffected

  datatype Selection = Everything(reason: Widening) | Packages(names: set<Name>)

  datatype Reason =
    | RootPackage
    | ReadsRoot(compiled: bool)
    | Owns(path: string)
    | Reads(reference: Reference, path: string)
    | DependsOn(package: Name)

  // ----- Paths -----

  const GLOBAL: seq<string> := [
    "Cargo.lock", "Cargo.toml", "rust-toolchain", "rust-toolchain.toml", "deny.toml", "clippy.toml",
    ".clippy.toml", "rustfmt.toml", ".rustfmt.toml", ".cargo/", ".config/", "vendor/", "xtask/build.rs",
    "xtask/bootstrap/", "xtask/src/compiler_env.rs", "xtask/src/trusted_sysroot.rs",
    "xtask/src/sysroot_sources.rs"]

  predicate Covers(entry: string, path: string) {
    if entry != "" && entry[|entry| - 1] == '/' then path == entry[..|entry| - 1] || entry <= path
    else path == entry
  }

  predicate Global(path: string) {
    exists i :: 0 <= i < |GLOBAL| && Covers(GLOBAL[i], path)
  }

  predicate Under(path: string, dir: string) {
    dir == "" || path == dir || dir + "/" <= path
  }

  /** The member whose directory most specifically contains `path`; among equals
      the last one wins. */
  function Owner(members: seq<Member>, path: string): (owner: Option<Member>)
    ensures owner.Some? ==> owner.value in members && Under(path, owner.value.dir)
    ensures forall m :: m in members && Under(path, m.dir) ==> owner.Some? && |m.dir| <= |owner.value.dir|
  {
    if members == [] then None
    else
      var n := |members| - 1;
      var best := Owner(members[..n], path);
      var m := members[n];
      assert members == members[..n] + [m];
      if Under(path, m.dir) && (best == None || |best.value.dir| <= |m.dir|) then Some(m) else best
  }

  /** With distinct directories the owner is the only member that close. */
  lemma OwnerIsUnique(members: seq<Member>, path: string, m: Member)
    requires forall i, j :: 0 <= i < j < |members| ==> members[i].dir != members[j].dir
    requires m in members && Under(path, m.dir)
    requires forall o :: o in members && Under(path, o.dir) ==> |o.dir| <= |m.dir|
    ensures Owner(members, path) == Some(m)
  {
    var o := Owner(members, path).value;
    assert |o.dir| == |m.dir|;
    SameLengthPrefixes(path, o.dir, m.dir);
    var i :| 0 <= i < |members| && members[i] == o;
    var j :| 0 <= j < |members| && members[j] == m;
  }

  lemma SameLengthPrefixes(path: string, a: string, b: string)
    requires Under(path, a) && Under(path, b) && |a| == |b|
    ensures a == b
  {
    if a != "" {
      assert path[..|a|] == a by {
        if path != a {
          assert (a + "/")[..|a|] == a;
        }
      }
      assert path[..|b|] == b by {
        if path != b {
          assert (b + "/")[..|b|] == b;
        }
      }
    }
  }

  // ----- What the selection should be -----

  function Root(members: seq<Member>): Option<Member> {
    if members == [] then None
    else if members[0].dir == "" then Some(members[0])
    else Root(members[1..])
  }

  /** `path` makes `reference.package` recheck. */
  predicate Touches(ws: Workspace, path: string, reference: Reference) {
    reference in ws.references && Under(path, reference.path)
  }

  /** The compiled output of `n` may change. */
  ghost predicate Changes(ws: Workspace, changed: seq<string>, n: Name) {
    || (changed != [] && n in ws.rootReaders && ws.rootReaders[n])
    || (exists path :: path in changed && OwnedBy(ws, path, n))
    || (exists path, r :: path in changed && Touches(ws, path, r) && r.compiled && r.package == n)
  }

  predicate OwnedBy(ws: Workspace, path: string, n: Name) {
    Owner(ws.members, path).Some? && Owner(ws.members, path).value.name == n
  }

  /** Tests of `n` read something that changed. */
  ghost predicate Observes(ws: Workspace, changed: seq<string>, n: Name) {
    || (changed != [] && n in ws.rootReaders && !ws.rootReaders[n])
    || (exists path, r :: path in changed && Touches(ws, path, r) && !r.compiled && r.package == n)
  }

  predicate Depends(ws: Workspace, n: Name, on: Name) {
    n in ws.dependencies && on in ws.dependencies[n]
  }

  /** Each package of `p` depends on the one before it. */
  ghost predicate Chain(ws: Workspace, p: seq<Name>) {
    p != [] && forall i :: 0 < i < |p| ==> Depends(ws, p[i], p[i - 1])
  }

  /** A chain of dependencies leads from a changed package to `n`. */
  ghost predicate Reached(ws: Workspace, changed: seq<string>, n: Name) {
    exists p :: Chain(ws, p) && Changes(ws, changed, p[0]) && p[|p| - 1] == n
  }

  ghost predicate Selected(ws: Workspace, changed: seq<string>, n: Name) {
    || (Root(ws.members).Some? && Root(ws.members).value.name == n)
    || Observes(ws, changed, n)
    || Reached(ws, changed, n)
  }

  /** The first changed path that cannot be attributed to packages. */
  function FirstWidening(ws: Workspace, changed: seq<string>): Option<Widening> {
    if Root(ws.members) == None then Some(NoRoot)
    else Unattributed(ws, changed)
  }

  function Unattributed(ws: Workspace, changed: seq<string>): Option<Widening> {
    if changed == [] then None
    else if Global(changed[0]) then Some(GlobalPath(changed[0]))
    else if Owner(ws.members, changed[0]) == None then Some(Orphan(changed[0]))
    else Unattributed(ws, changed[1..])
  }

  /** `selection` and the packages `names` are the right answer for `changed`. */
  ghost predicate Decides(ws: Workspace, changed: seq<string>, selection: Selection, names: set<Name>) {
    if FirstWidening(ws, changed).Some? then
      selection == Everything(FirstWidening(ws, changed).value) && names == {}
    else
      && (forall n :: n in names <==> Selected(ws, changed, n))
      && selection == if |names| >= |ws.members| then Everything(AllAffected) else Packages(names)
  }

  /** The reason given for `n` is true. */
  ghost predicate Justified(ws: Workspace, changed: seq<string>, why: map<Name, Reason>, n: Name)
    requires n in why
  {
    match why[n]
    case RootPackage => Root(ws.members).Some? && Root(ws.members).value.name == n
    case ReadsRoot(compiled) => changed != [] && n in ws.rootReaders && ws.rootReaders[n] == compiled
    case Owns(path) => path in changed && OwnedBy(ws, path, n)
    case Reads(r, path) => path in changed && Touches(ws, path, r) && r.package == n
    case DependsOn(p) => p in why && Depends(ws, n, p)
  }

  /** Following the "depends on" reasons always comes to an end. */
  ghost predicate Grounded(why: map<Name, Reason>, rank: map<Name, nat>) {
    && why.Keys == rank.Keys
    && forall n :: n in why && why[n].DependsOn? ==> why[n].package in why && rank[why[n].package] < rank[n]
  }

  // ----- The algorithm -----

  /** The packages the direct reasons name, split as the two sets of the code. */
  ghost predicate Gathered(ws: Workspace, changed: seq<string>, code: set<Name>, observers: set<Name>) {
    && (forall n :: n in code <==> Changes(ws, changed, n))
    && (forall n :: n in observers <==>
                    Observes(ws, changed, n) || (Root(ws.members).Some? && Root(ws.members).value.name == n))
  }

  ghost predicate Explained(ws: Workspace, changed: seq<string>, why: map<Name, Reason>) {
    forall n :: n in why ==> !why[n].DependsOn? && Justified(ws, changed, why, n)
  }

  function Note(why: map<Name, Reason>, n: Name, reason: Reason): map<Name, Reason> {
    if n in why then why else why[n := reason]
  }

  ghost predicate RootRead(ws: Workspace, changed: seq<string>, compiled: bool, n: Name) {
    changed != [] && n in ws.rootReaders && ws.rootReaders[n] == compiled
  }

  /** The readers of the workspace root, when anything changed at all. */
  method GatherRoot(ws: Workspace, changed: seq<string>, root: Name)
      returns (code: set<Name>, observers: set<Name>, why: map<Name, Reason>)
    requires Root(ws.members).Some? && root == Root(ws.members).value.name
    ensures forall n :: n in code <==> RootRead(ws, changed, true, n)
    ensures forall n :: n in observers <==> n == root || RootRead(ws, changed, false, n)
    ensures why.Keys == code + observers && Explained(ws, changed, why)
  {
    code, observers := {}, {root};
    why := map[root := RootPackage];
    if changed != [] {
      var todo := ws.rootReaders.Keys;
      while todo != {}
        invariant todo <= ws.rootReaders.Keys
        invariant forall n :: n in code <==> RootRead(ws, changed, true, n) && n !in todo
        invariant forall n :: n in observers <==> n == root || (RootRead(ws, changed, false, n) && n !in todo)
        invariant why.Keys == code + observers && Explained(ws, changed, why)
        decreases todo
      {
        var n :| n in todo;
        if ws.rootReaders[n] {
          code := code + {n};
        } else {
          observers := observers + {n};
        }
        why := Note(why, n, ReadsRoot(ws.rootReaders[n]));
        todo := todo - {n};
      }
    }
  }

  ghost predicate PathChanges(ws: Workspace, path: string, j: nat, n: Name)
    requires j <= |ws.references|
  {
    OwnedBy(ws, path, n) || exists k :: 0 <= k < j && Hits(ws, path, k, true, n)
  }

  ghost predicate Hits(ws: Workspace, path: string, k: nat, compiled: bool, n: Name)
    requires k < |ws.references|
  {
    var r := ws.references[k];
    Under(path, r.path) && r.compiled == compiled && r.package == n
  }

  ghost predicate PathObserves(ws: Workspace, path: string, j: nat, n: Name)
    requires j <= |ws.references|
  {
    exists k :: 0 <= k < j && Hits(ws, path, k, false, n)
  }

  lemma PathStep(ws: Workspace, path: string, j: nat, n: Name)
    requires j < |ws.references|
    ensures PathChanges(ws, path, j + 1, n) <==> PathChanges(ws, path, j, n) || Hits(ws, path, j, true, n)
    ensures PathObserves(ws, path, j + 1, n) <==> PathObserves(ws, path, j, n) || Hits(ws, path, j, false, n)
  {
  }

  lemma NoteKeepsExplained(ws: Workspace, changed: seq<string>, why: map<Name, Reason>, n: Name, reason: Reason)
    requires Explained(ws, changed, why) && !reason.DependsOn?
    requires Justified(ws, changed, map[n := reason], n)
    ensures Explained(ws, changed, Note(why, n, reason))
    ensures Note(why, n, reason).Keys == why.Keys + {n}
  {
  }

  lemma PathStart(ws: Workspace, path: string, owner: Name, n: Name)
    requires OwnedBy(ws, path, owner)
    ensures PathChanges(ws, path, 0, n) <==> n == owner
    ensures !PathObserves(ws, path, 0, n)
  {
  }

  /** The owner and the readers of one changed path. */
  method GatherPath(ws: Workspace, ghost changed: seq<string>, path: string, owner: Name,
                    code0: set<Name>, observers0: set<Name>, why0: map<Name, Reason>)
      returns (code: set<Name>, observers: set<Name>, why: map<Name, Reason>)
    requires path in changed && OwnedBy(ws, path, owner)
    requires why0.Keys == code0 + observers0 && Explained(ws, changed, why0)
    ensures forall n :: n in code <==> n in code0 || PathChanges(ws, path, |ws.references|, n)
    ensures forall n :: n in observers <==> n in observers0 || PathObserves(ws, path, |ws.references|, n)
    ensures why.Keys == code + observers && Explained(ws, changed, why)
  {
    hide PathChanges, PathObserves, Explained, Note, Under, OwnedBy, Justified;
    code, observers := code0 + {owner}, observers0;
    NoteKeepsExplained(ws, changed, why0, owner, Owns(path));
    why := Note(why0, owner, Owns(path));
    forall n {
      PathStart(ws, path, owner, n);
    }
    for j := 0 to |ws.references|
      invariant forall n :: n in code <==> n in code0 || PathChanges(ws, path, j, n)
      invariant forall n :: n in observers <==> n in observers0 || PathObserves(ws, path, j, n)
      invariant why.Keys == code + observers && Explained(ws, changed, why)
    {
      var r := ws.references[j];
      forall n {
        PathStep(ws, path, j, n);
      }
      if Under(path, r.path) {
        assert Touches(ws, path, r);
        if r.compiled {
          code := code + {r.package};
        } else {
          observers := observers + {r.package};
        }
        NoteKeepsExplained(ws, changed, why, r.package, Reads(r, path));
        why := Note(why, r.package, Reads(r, path));
      }
    }
  }

  lemma PathChangesMeans(ws: Workspace, path: string, n: Name)
    ensures PathChanges(ws, path, |ws.references|, n) <==>
              OwnedBy(ws, path, n) || exists r :: Touches(ws, path, r) && r.compiled && r.package == n
    ensures PathObserves(ws, path, |ws.references|, n) <==>
              exists r :: Touches(ws, path, r) && !r.compiled && r.package == n
  {
    forall k | 0 <= k < |ws.references| && Under(path, ws.references[k].path)
      ensures Touches(ws, path, ws.references[k])
    {
    }
    forall r | Touches(ws, path, r) && r.package == n
      ensures exists k :: 0 <= k < |ws.references| && Hits(ws, path, k, r.compiled, n)
    {
      var k :| 0 <= k < |ws.references| && ws.references[k] == r;
      assert Hits(ws, path, k, r.compiled, n);
    }
  }

  ghost predicate PrefixChanges(ws: Workspace, changed: seq<string>, i: nat, n: Name)
    requires i <= |changed|
  {
    RootRead(ws, changed, true, n) || exists k :: 0 <= k < i && PathChanges(ws, changed[k], |ws.references|, n)
  }

  ghost predicate PrefixObserves(ws: Workspace, changed: seq<string>, i: nat, n: Name)
    requires i <= |changed|
  {
    RootRead(ws, changed, false, n) || exists k :: 0 <= k < i && PathObserves(ws, changed[k], |ws.references|, n)
  }

  lemma PrefixMeans(ws: Workspace, changed: seq<string>, n: Name)
    ensures PrefixChanges(ws, changed, |changed|, n) <==> Changes(ws, changed, n)
    ensures PrefixObserves(ws, changed, |changed|, n) <==> Observes(ws, changed, n)
  {
    forall path {
      PathChangesMeans(ws, path, n);
    }
    if Changes(ws, changed, n) && !RootRead(ws, changed, true, n) {
      var path :| path in changed && PathChanges(ws, path, |ws.references|, n);
      var k :| 0 <= k < |changed| && changed[k] == path;
      assert PathChanges(ws, changed[k], |ws.references|, n);
    }
    if Observes(ws, changed, n) && !RootRead(ws, changed, false, n) {
      var path :| path in changed && PathObserves(ws, path, |ws.references|, n);
      var k :| 0 <= k < |changed| && changed[k] == path;
      assert PathObserves(ws, changed[k], |ws.references|, n);
    }
    if PrefixChanges(ws, changed, |changed|, n) && !RootRead(ws, changed, true, n) {
      var k :| 0 <= k < |changed| && PathChanges(ws, changed[k], |ws.references|, n);
      assert changed[k] in changed;
    }
    if PrefixObserves(ws, changed, |changed|, n) && !RootRead(ws, changed, false, n) {
      var k :| 0 <= k < |changed| && PathObserves(ws, changed[k], |ws.references|, n);
      assert changed[k] in changed;
    }
  }

  lemma UnattributedStep(ws: Workspace, changed: seq<string>, i: nat)
    requires i < |changed|
    ensures Unattributed(ws, changed[i..])
         == if Global(changed[i]) then Some(GlobalPath(changed[i]))
            else if Owner(ws.members, changed[i]) == None then Some(Orphan(changed[i]))
            else Unattributed(ws, changed[i + 1..])
  {
    assert changed[i..][0] == changed[i] && changed[i..][1..] == changed[i + 1..];
  }

  /** The packages directly named by the changed paths, or why none are. */
  method Gather(ws: Workspace, changed: seq<string>, root: Name)
      returns (widened: Option<Widening>, code: set<Name>, observers: set<Name>, why: map<Name, Reason>)
    requires Root(ws.members).Some? && root == Root(ws.members).value.name
    ensures widened == Unattributed(ws, changed)
    ensures widened.None? ==>
              && Gathered(ws, changed, code, observers)
              && why.Keys == code + observers && Explained(ws, changed, why)
  {
    code, observers, why := GatherRoot(ws, changed, root);
    var i := 0;
    assert changed[0..] == changed;
    while i < |changed|
      invariant 0 <= i <= |changed|
      invariant Unattributed(ws, changed) == Unattributed(ws, changed[i..])
      invariant forall n :: n in code <==> PrefixChanges(ws, changed, i, n)
      invariant forall n :: n in observers <==> n == root || PrefixObserves(ws, changed, i, n)
      invariant why.Keys == code + observers && Explained(ws, changed, why)
    {
      UnattributedStep(ws, changed, i);
      if Global(changed[i]) {
        return Some(GlobalPath(changed[i])), code, observers, why;
      }
      var owner := Owner(ws.members, changed[i]);
      if owner.None? {
        return Some(Orphan(changed[i])), code, observers, why;
      }
      code, observers, why := GatherPath(ws, changed, changed[i], owner.value.name, code, observers, why);
      i := i + 1;
    }
    widened := None;
    forall n {
      PrefixMeans(ws, changed, n);
    }
  }

  ghost predicate Inverted(ws: Workspace, dependents: map<Name, seq<Name>>) {
    forall d, n :: Depends(ws, d, n) <==> n in dependents && d in dependents[n]
  }

  function Dependents(dependents: map<Name, seq<Name>>, package: Name): seq<Name> {
    if package in dependents then dependents[package] else []
  }

  lemma DependentsAre(ws: Workspace, dependents: map<Name, seq<Name>>, package: Name)
    requires Inverted(ws, dependents)
    ensures forall d :: d in Dependents(dependents, package) <==> Depends(ws, d, package)
  {
  }

  /** The dependency edges, turned round. */
  method Invert(ws: Workspace) returns (dependents: map<Name, seq<Name>>)
    ensures Inverted(ws, dependents)
  {
    dependents := map[];
    var todo := ws.dependencies.Keys;
    while todo != {}
      invariant todo <= ws.dependencies.Keys
      invariant forall d, n :: Depends(ws, d, n) && d !in todo <==> n in dependents && d in dependents[n]
      decreases todo
    {
      var package :| package in todo;
      var deps := ws.dependencies[package];
      while deps != {}
        invariant deps <= ws.dependencies[package]
        invariant forall d, n :: n in dependents && d in dependents[n] <==>
                    Depends(ws, d, n) && (d !in todo || (d == package && n !in deps))
        decreases deps
      {
        var dep :| dep in deps;
        var listed := if dep in dependents then dependents[dep] else [];
        dependents := dependents[dep := listed + [package]];
        deps := deps - {dep};
      }
      todo := todo - {package};
    }
  }

  /** Everything reached so far is closed under dependents, up to the queue. */
  ghost predicate ClosedUpTo(ws: Workspace, selected: set<Name>, queue: seq<Name>) {
    forall n, d :: n in selected && Depends(ws, d, n) && n !in queue ==> d in selected
  }

  ghost predicate AllReached(ws: Workspace, changed: seq<string>, selected: set<Name>) {
    forall n :: n in selected ==> Reached(ws, changed, n)
  }

  lemma DependentIsReached(ws: Workspace, changed: seq<string>, n: Name, d: Name)
    requires Reached(ws, changed, n) && Depends(ws, d, n)
    ensures Reached(ws, changed, d)
  {
    var p :| Chain(ws, p) && Changes(ws, changed, p[0]) && p[|p| - 1] == n;
    var q := p + [d];
    assert Chain(ws, q) && q[0] == p[0] && q[|q| - 1] == d;
  }

  lemma {:induction false} ClosedContainsChain(ws: Workspace, selected: set<Name>, p: seq<Name>)
    requires ClosedUpTo(ws, selected, [])
    requires Chain(ws, p) && p[0] in selected
    ensures p[|p| - 1] in selected
    decreases |p|
  {
    if |p| > 1 {
      var q := p[..|p| - 1];
      assert Chain(ws, q);
      ClosedContainsChain(ws, selected, q);
      assert Depends(ws, p[|p| - 1], q[|q| - 1]);
    }
  }

  ghost predicate Noted(ws: Workspace, changed: seq<string>, why: map<Name, Reason>, rank: map<Name, nat>) {
    Grounded(why, rank) && forall n :: n in why ==> Justified(ws, changed, why, n)
  }

  /** What the worklist keeps about the packages it has selected. */
  ghost predicate Grown(ws: Workspace, changed: seq<string>, why0: map<Name, Reason>,
                        selected: set<Name>, why: map<Name, Reason>, rank: map<Name, nat>, clock: nat) {
    && AllReached(ws, changed, selected)
    && why.Keys == why0.Keys + selected
    && Noted(ws, changed, why, rank)
    && forall n :: n in rank ==> rank[n] < clock
  }

  function Ranked(rank: map<Name, nat>, n: Name, clock: nat): map<Name, nat> {
    if n in rank then rank else rank[n := clock]
  }

  lemma JustifiedStays(ws: Workspace, changed: seq<string>, why: map<Name, Reason>, why1: map<Name, Reason>, n: Name)
    requires n in why && n in why1 && why1[n] == why[n] && why.Keys <= why1.Keys
    requires Justified(ws, changed, why, n)
    ensures Justified(ws, changed, why1, n)
  {
  }

  lemma NoteKeepsNoted(ws: Workspace, changed: seq<string>, why: map<Name, Reason>, rank: map<Name, nat>,
                       clock: nat, package: Name, dependent: Name)
    requires Noted(ws, changed, why, rank) && forall n :: n in rank ==> rank[n] < clock
    requires package in why && dependent !in why && Depends(ws, dependent, package)
    ensures Noted(ws, changed, why[dependent := DependsOn(package)], rank[dependent := clock])
  {
    var why1 := why[dependent := DependsOn(package)];
    forall n | n in why1
      ensures Justified(ws, changed, why1, n)
    {
      if n != dependent {
        JustifiedStays(ws, changed, why, why1, n);
      }
    }
  }

  lemma NotedKeys(ws: Workspace, changed: seq<string>, why: map<Name, Reason>, rank: map<Name, nat>)
    requires Noted(ws, changed, why, rank)
    ensures why.Keys == rank.Keys
  {
  }

  lemma ReachedTogether(ws: Workspace, changed: seq<string>, selected: set<Name>, package: Name, dependent: Name)
    requires AllReached(ws, changed, selected) && package in selected && Depends(ws, dependent, package)
    ensures AllReached(ws, changed, selected + {dependent})
  {
    hide Reached, Depends;
    DependentIsReached(ws, changed, package, dependent);
  }

  lemma Grow(ws: Workspace, changed: seq<string>, why0: map<Name, Reason>, selected: set<Name>,
             why: map<Name, Reason>, rank: map<Name, nat>, clock: nat, package: Name, dependent: Name)
    requires Grown(ws, changed, why0, selected, why, rank, clock)
    requires package in selected && Depends(ws, dependent, package)
    ensures Grown(ws, changed, why0, selected + {dependent},
                  Note(why, dependent, DependsOn(package)), Ranked(rank, dependent, clock), clock + 1)
  {
    hide Noted, Reached, Depends, AllReached;
    ReachedTogether(ws, changed, selected, package, dependent);
    NotedKeys(ws, changed, why, rank);
    if dependent !in why {
      NoteKeepsNoted(ws, changed, why, rank, clock, package, dependent);
    }
  }

  /** Select the dependents of one package that are not selected yet. */
  method Spread(ws: Workspace, ghost changed: seq<string>, ghost why0: map<Name, Reason>,
                package: Name, list: seq<Name>,
                selected0: set<Name>, queue0: seq<Name>, whyBefore: map<Name, Reason>,
                ghost rank0: map<Name, nat>, ghost clock0: nat)
      returns (selected: set<Name>, queue: seq<Name>, why: map<Name, Reason>,
               ghost rank: map<Name, nat>, ghost clock: nat)
    requires forall d :: d in list <==> Depends(ws, d, package)
    requires package in selected0
    requires Grown(ws, changed, why0, selected0, whyBefore, rank0, clock0)
    ensures forall n :: n in selected <==> n in selected0 || n in list
    ensures forall n :: n in queue <==> n in queue0 || (n in selected && n !in selected0)
    ensures selected == selected0 ==> queue == queue0
    ensures Grown(ws, changed, why0, selected, why, rank, clock)
  {
    hide Grown, Note, Ranked, Depends;
    selected, queue, why, rank, clock := selected0, queue0, whyBefore, rank0, clock0;
    for i := 0 to |list|
      invariant forall n :: n in selected <==> n in selected0 || n in list[..i]
      invariant forall n :: n in queue <==> n in queue0 || (n in selected && n !in selected0)
      invariant selected == selected0 ==> queue == queue0
      invariant Grown(ws, changed, why0, selected, why, rank, clock)
    {
      var dependent := list[i];
      assert list[..i + 1] == list[..i] + [dependent];
      if dependent !in selected {
        assert dependent in list;
        Grow(ws, changed, why0, selected, why, rank, clock, package, dependent);
        rank := Ranked(rank, dependent, clock);
        clock := clock + 1;
        why := Note(why, dependent, DependsOn(package));
        selected := selected + {dependent};
        queue := queue + [dependent];
      }
    }
    assert list[..|list|] == list;
  }

  lemma StillClosed(ws: Workspace, before: set<Name>, closing: seq<Name>, package: Name, list: seq<Name>,
                    selected: set<Name>, queue: seq<Name>)
    requires ClosedUpTo(ws, before, closing)
    requires forall d :: d in list <==> Depends(ws, d, package)
    requires forall n :: n in selected <==> n in before || n in list
    requires forall n :: n in closing ==> n == package || n in queue
    requires forall n :: n in selected && n !in before ==> n in queue
    ensures ClosedUpTo(ws, selected, queue)
  {
  }

  lemma WithinUniverse(ws: Workspace, package: Name, list: seq<Name>, universe: set<Name>,
                       before: set<Name>, selected: set<Name>)
    requires ws.dependencies.Keys <= universe && before <= universe
    requires forall d :: d in list <==> Depends(ws, d, package)
    requires forall n :: n in selected <==> n in before || n in list
    ensures before <= selected <= universe
    ensures selected != before ==> universe - selected < universe - before
  {
    if selected != before {
      var n :| n in selected && n !in before;
      assert n in universe - before && n !in universe - selected;
    }
  }

  /** The invariant of the worklist. */
  ghost predicate Working(ws: Workspace, changed: seq<string>, code: set<Name>, why0: map<Name, Reason>,
                          selected: set<Name>, queue: seq<Name>, why: map<Name, Reason>,
                          rank: map<Name, nat>, clock: nat) {
    && code <= selected <= code + ws.dependencies.Keys
    && (forall n :: n in queue ==> n in selected)
    && ClosedUpTo(ws, selected, queue)
    && Grown(ws, changed, why0, selected, why, rank, clock)
  }

  /** Take one package from the worklist. */
  method Visit(ws: Workspace, ghost changed: seq<string>, ghost code: set<Name>, ghost why0: map<Name, Reason>,
               dependents: map<Name, seq<Name>>, selected0: set<Name>, queue0: seq<Name>,
               whyBefore: map<Name, Reason>, ghost rank0: map<Name, nat>, ghost clock0: nat)
      returns (selected: set<Name>, queue: seq<Name>, why: map<Name, Reason>,
               ghost rank: map<Name, nat>, ghost clock: nat)
    requires Inverted(ws, dependents) && queue0 != []
    requires Working(ws, changed, code, why0, selected0, queue0, whyBefore, rank0, clock0)
    ensures Working(ws, changed, code, why0, selected, queue, why, rank, clock)
    ensures
      var universe := code + ws.dependencies.Keys;
      || universe - selected < universe - selected0
      || (selected == selected0 && |queue| < |queue0|)
  {
    hide Grown, Reached, ClosedUpTo, Depends, Inverted, Dependents;
    ghost var universe := code + ws.dependencies.Keys;
    var package := queue0[|queue0| - 1];
    var rest := queue0[..|queue0| - 1];
    assert queue0 == rest + [package];
    var list := Dependents(dependents, package);
    DependentsAre(ws, dependents, package);
    selected, queue, why, rank, clock :=
      Spread(ws, changed, why0, package, list, selected0, rest, whyBefore, rank0, clock0);
    StillClosed(ws, selected0, queue0, package, list, selected, queue);
    WithinUniverse(ws, package, list, universe, selected0, selected);
  }

  /** Everything that depends on a package of `code`, transitively. */
  method Close(ws: Workspace, ghost changed: seq<string>, code: set<Name>, start: seq<Name>, why0: map<Name, Reason>)
      returns (selected: set<Name>, why: map<Name, Reason>, ghost rank: map<Name, nat>)
    requires forall n :: n in code <==> Changes(ws, changed, n)
    requires forall n :: n in start <==> n in code
    requires code <= why0.Keys && Explained(ws, changed, why0)
    ensures forall n :: n in selected <==> Reached(ws, changed, n)
    ensures why.Keys == why0.Keys + selected
    ensures Noted(ws, changed, why, rank)
  {
    hide Changes, Explained, Noted, Reached, Inverted, Working;
    var dependents := Invert(ws);
    selected, why := code, why0;
    rank := map n | n in why0 :: 0;
    ghost var clock := 1;
    var queue := start;
    CodeIsReached(ws, changed, code, why0, rank, start);
    while queue != []
      invariant Working(ws, changed, code, why0, selected, queue, why, rank, clock)
      decreases |code + ws.dependencies.Keys - selected|, |queue|
    {
      ghost var before := code + ws.dependencies.Keys - selected;
      selected, queue, why, rank, clock :=
        Visit(ws, changed, code, why0, dependents, selected, queue, why, rank, clock);
      ghost var now := code + ws.dependencies.Keys - selected;
      if now < before {
        SmallerSet(now, before);
      }
    }
    ClosedIsReached(ws, changed, code, why0, selected, why, rank, clock);
  }

  lemma ClosedIsReached(ws: Workspace, changed: seq<string>, code: set<Name>, why0: map<Name, Reason>,
                        selected: set<Name>, why: map<Name, Reason>, rank: map<Name, nat>, clock: nat)
    requires forall n :: n in code <==> Changes(ws, changed, n)
    requires Working(ws, changed, code, why0, selected, [], why, rank, clock)
    ensures forall n :: n in selected <==> Reached(ws, changed, n)
    ensures why.Keys == why0.Keys + selected && Noted(ws, changed, why, rank)
  {
    forall n | Reached(ws, changed, n)
      ensures n in selected
    {
      var p :| Chain(ws, p) && Changes(ws, changed, p[0]) && p[|p| - 1] == n;
      ClosedContainsChain(ws, selected, p);
    }
  }

  lemma CodeIsReached(ws: Workspace, changed: seq<string>, code: set<Name>, why0: map<Name, Reason>,
                      rank: map<Name, nat>, start: seq<Name>)
    requires forall n :: n in code ==> Changes(ws, changed, n)
    requires forall n :: n in start <==> n in code
    requires code <= why0.Keys && Explained(ws, changed, why0)
    requires rank == map n | n in why0 :: 0
    ensures AllReached(ws, changed, code)
    ensures Working(ws, changed, code, why0, code, start, why0, rank, 1)
  {
    forall n | n in code
      ensures Reached(ws, changed, n)
    {
      assert Chain(ws, [n]);
      assert [n][0] == n;
    }
  }

  lemma SmallerSet(a: set<Name>, b: set<Name>)
    requires a < b
    ensures |a| < |b|
  {
    assert b == a + (b - a);
    assert b - a != {};
  }

  /** The elements of a set, in some order. */
  method Listing(s: set<Name>) returns (list: seq<Name>)
    ensures forall n :: n in list <==> n in s
  {
    list := [];
    var todo := s;
    while todo != {}
      invariant todo <= s
      invariant forall n :: n in list <==> n in s && n !in todo
      decreases todo
    {
      var n :| n in todo;
      list := list + [n];
      todo := todo - {n};
    }
  }

  lemma NothingNoted(ws: Workspace, changed: seq<string>)
    ensures Noted(ws, changed, map[], map[])
  {
  }

  /** `select_explained`: the selection, one true reason for every package in it,
      and a proof that following the reasons ends. */
  method SelectExplained(ws: Workspace, changed: seq<string>)
      returns (selection: Selection, why: map<Name, Reason>, ghost rank: map<Name, nat>)
    ensures Decides(ws, changed, selection, why.Keys)
    ensures Noted(ws, changed, why, rank)
  {
    hide Changes, Observes, Reached, Explained, Noted, Working;
    var root := Root(ws.members);
    if root.None? {
      NothingNoted(ws, changed);
      return Everything(NoRoot), map[], map[];
    }
    var widened, code, observers, noted := Gather(ws, changed, root.value.name);
    if widened.Some? {
      NothingNoted(ws, changed);
      return Everything(widened.value), map[], map[];
    }
    var queue := Listing(code);
    var selected;
    selected, why, rank := Close(ws, changed, code, queue, noted);
    selected := selected + observers;
    CodeIsReached(ws, changed, code, noted, map n | n in noted :: 0, queue);
    assert why.Keys == selected;
    selection := if |selected| >= |ws.members| then Everything(AllAffected) else Packages(selected);
  }

  // ----- The selection as a function of the set of changed paths -----

  lemma {:induction false} UnattributedSplits(ws: Workspace, a: seq<string>, b: seq<string>)
    ensures Unattributed(ws, a + b) == if Unattributed(ws, a).Some? then Unattributed(ws, a) else Unattributed(ws, b)
    decreases |a|
  {
    if a == [] {
      assert a + b == b;
    } else {
      assert (a + b)[1..] == a[1..] + b;
      UnattributedSplits(ws, a[1..], b);
    }
  }

  lemma SelectedSplits(ws: Workspace, a: seq<string>, b: seq<string>, n: Name)
    ensures Selected(ws, a + b, n) <==> Selected(ws, a, n) || Selected(ws, b, n)
  {
    assert forall m :: Changes(ws, a + b, m) <==> Changes(ws, a, m) || Changes(ws, b, m);
    hide Changes;
    if Reached(ws, a + b, n) {
      var p :| Chain(ws, p) && Changes(ws, a + b, p[0]) && p[|p| - 1] == n;
      assert Changes(ws, a, p[0]) ==> Reached(ws, a, n);
      assert Changes(ws, b, p[0]) ==> Reached(ws, b, n);
    }
    if Reached(ws, a, n) {
      var p :| Chain(ws, p) && Changes(ws, a, p[0]) && p[|p| - 1] == n;
      assert Changes(ws, a + b, p[0]);
    }
    if Reached(ws, b, n) {
      var p :| Chain(ws, p) && Changes(ws, b, p[0]) && p[|p| - 1] == n;
      assert Changes(ws, a + b, p[0]);
    }
  }

  lemma SubsetCount(a: set<Name>, b: set<Name>)
    requires a <= b
    ensures |a| <= |b|
  {
    if a != b {
      SmallerSet(a, b);
    }
  }

  /** Selection is a join: deciding two lists of changes together is joining the
      two decisions, with the whole workspace on top. */
  lemma SelectionJoins(ws: Workspace, a: seq<string>, b: seq<string>,
                       sa: Selection, na: set<Name>, sb: Selection, nb: set<Name>, s: Selection, n: set<Name>)
    requires Decides(ws, a, sa, na) && Decides(ws, b, sb, nb) && Decides(ws, a + b, s, n)
    ensures s.Everything? <==> sa.Everything? || sb.Everything? || |na + nb| >= |ws.members|
    ensures s.Packages? ==> s.names == sa.names + sb.names
  {
    UnattributedSplits(ws, a, b);
    forall m {
      SelectedSplits(ws, a, b, m);
    }
    hide Selected;
    if FirstWidening(ws, a + b).None? {
      assert n == na + nb;
      SubsetCount(na, n);
      SubsetCount(nb, n);
    }
  }

  lemma {:induction false} UnattributedMeans(ws: Workspace, changed: seq<string>)
    ensures Unattributed(ws, changed).None? <==>
              forall p :: p in changed ==> !Global(p) && Owner(ws.members, p).Some?
    decreases |changed|
  {
    if changed != [] {
      UnattributedMeans(ws, changed[1..]);
      assert changed == [changed[0]] + changed[1..];
    }
  }

  /** Order and repetition of the changed paths do not matter. */
  lemma SelectionIgnoresOrder(ws: Workspace, a: seq<string>, b: seq<string>,
                              sa: Selection, na: set<Name>, sb: Selection, nb: set<Name>)
    requires forall p :: p in a <==> p in b
    requires Decides(ws, a, sa, na) && Decides(ws, b, sb, nb)
    ensures na == nb
    ensures sa.Everything? <==> sb.Everything?
    ensures sa.Packages? ==> sa == sb
  {
    UnattributedMeans(ws, a);
    UnattributedMeans(ws, b);
    assert a == [] <==> b == [] by {
      assert a != [] ==> a[0] in b;
      assert b != [] ==> b[0] in a;
    }
    assert forall m :: Changes(ws, a, m) <==> Changes(ws, b, m);
    assert forall m :: Observes(ws, a, m) <==> Observes(ws, b, m);
    hide Changes, Observes;
    assert forall m :: Reached(ws, a, m) <==> Reached(ws, b, m);
  }

  ghost predicate IsMember(ws: Workspace, n: Name) {
    exists i :: 0 <= i < |ws.members| && ws.members[i].name == n
  }

  /** Every name the workspace mentions is a member, and no two members share one. */
  ghost predicate Closed(ws: Workspace) {
    && (forall i, j :: 0 <= i < j < |ws.members| ==> ws.members[i].name != ws.members[j].name)
    && (forall n :: n in ws.dependencies || n in ws.rootReaders ==> IsMember(ws, n))
    && (forall r :: r in ws.references ==> IsMember(ws, r.package))
  }

  lemma {:induction false} MemberCount(members: seq<Member>)
    requires forall i, j :: 0 <= i < j < |members| ==> members[i].name != members[j].name
    ensures |set m | m in members :: m.name| == |members|
    decreases |members|
  {
    if members != [] {
      var rest := members[..|members| - 1];
      var m := members[|members| - 1];
      MemberCount(rest);
      assert (set x | x in members :: x.name) == (set x | x in rest :: x.name) + {m.name};
      assert m.name !in set x | x in rest :: x.name;
    }
  }

  lemma ReachedIsMember(ws: Workspace, changed: seq<string>, n: Name)
    requires Closed(ws) && Selected(ws, changed, n)
    ensures IsMember(ws, n)
  {
    if Reached(ws, changed, n) {
      var p :| Chain(ws, p) && Changes(ws, changed, p[0]) && p[|p| - 1] == n;
      if |p| > 1 {
        assert Depends(ws, p[|p| - 1], p[|p| - 2]);
      } else {
        ChangedIsMember(ws, changed, n);
      }
    } else if Observes(ws, changed, n) {
    } else {
      RootIsMember(ws.members);
    }
  }

  lemma ChangedIsMember(ws: Workspace, changed: seq<string>, n: Name)
    requires Closed(ws) && Changes(ws, changed, n)
    ensures IsMember(ws, n)
  {
    if path :| path in changed && OwnedBy(ws, path, n) {
      assert Owner(ws.members, path).value in ws.members;
    }
  }

  lemma {:induction false} RootIsMember(members: seq<Member>)
    requires Root(members).Some?
    ensures Root(members).value in members
    decreases |members|
  {
    if members[0].dir != "" {
      RootIsMember(members[1..]);
    }
  }

  /** Comparing counts is comparing sets: in a closed workspace the selection
      widens to everything exactly when every member is affected. */
  lemma WidensExactly(ws: Workspace, changed: seq<string>, s: Selection, names: set<Name>)
    requires Closed(ws) && FirstWidening(ws, changed).None? && Decides(ws, changed, s, names)
    ensures s == Everything(AllAffected) <==> forall m :: m in ws.members ==> Selected(ws, changed, m.name)
    ensures s.Packages? ==> s.names < set m | m in ws.members :: m.name
  {
    var all := set m | m in ws.members :: m.name;
    MemberCount(ws.members);
    forall n | n in names
      ensures n in all
    {
      ReachedIsMember(ws, changed, n);
      var i :| 0 <= i < |ws.members| && ws.members[i].name == n;
      assert ws.members[i] in ws.members;
    }
    if names != all {
      SmallerSet(names, all);
    }
  }
}
