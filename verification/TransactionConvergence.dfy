/** The guarantees of the installer as a caller sees them: convergence through
    any number of power losses, and the algebra of rollback. */
module TransactionConvergence {
  import opened Outcome
  import opened Package
  import opened Transaction
  import opened TransactionReceipt
  import opened TransactionSafety
  import opened TransactionRecovery

  // ----- A concluded request -----

  /** `v` is the result of a request that succeeded with `s`. */
  predicate Concluded(v: Volume, r: Request, w: World, s: Selection) {
    && ReadPending(v).Absent?
    && ReadActive(v) == Holding(s)
    && Valid(s)
    && Meets(s, r.expected)
    && (r.action.Install? ==> s.current == s.dispatcher == r.action.source.release)
    && EntryIs(v, Some(s.dispatcher))
    && Verified(v, s.current)
    && (s.previous.Some? ==> Verified(v, s.previous.value))
    && Opens(Directory(v, s.dispatcher), s.dispatcher)
    && Pinned(Directory(v, s.dispatcher), s.dispatcher)
    && s.current in w.healthy
    && w.registers
  }

  lemma FinishConcludes(v: Volume, t: Transition, r: Request, w: World)
    requires FinishPlan(v, t, w).result.Ok?
    requires Meets(t.after, r.expected)
    requires r.action.Install? ==> t.after.current == t.after.dispatcher == r.action.source.release
    ensures Concluded(Replay(v, FinishPlan(v, t, w).writes), r, w, t.after)
  {
    OkFinishIsReady(v, t, w);
    FinishSettles(v, t, w);
    var u := Settled(v, t.after);
    assert SameSlots(v, u);
    SameDirectory(v, u, t.after.current);
    SameDirectory(v, u, t.after.dispatcher);
    if t.after.previous.Some? {
      SameDirectory(v, u, t.after.previous.value);
    }
  }

  lemma CommitConcludes(v: Volume, t: Transition, r: Request, w: World)
    requires CommitPlan(v, t, w).result.Ok?
    requires Meets(t.after, r.expected)
    requires r.action.Install? ==> t.after.current == t.after.dispatcher == r.action.source.release
    ensures Concluded(Replay(v, CommitPlan(v, t, w).writes), r, w, t.after)
  {
    var v1 := Perform(v, Put(Pending, TransitionDoc(t)));
    FinishConcludes(v1, t, r, w);
    assert CommitPlan(v, t, w).writes[1..] == FinishPlan(v1, t, w).writes;
  }

  lemma FreshConcludes(v: Volume, r: Request, w: World)
    requires FreshPlan(v, r, w).result.Ok?
    ensures Concluded(Replay(v, FreshPlan(v, r, w).writes), r, w, FreshPlan(v, r, w).result.value)
  {
    var before := Observed(ReadActive(v));
    if r.action.Install? {
      FreshInstallIs(v, r, w);
      var stage := ImportPlan(v, r.action.source, r.action.predecessor, before == None);
      var after := InstallTarget(r.action.source.release, before, stage.result.value);
      CommitConcludes(Replay(v, stage.writes), Transition(Requested(r), Dispatcher(before), before, after), r, w);
    } else {
      var after := RollbackTarget(v, before.value, r.expected).value;
      CommitConcludes(v, Transition(Requested(r), Dispatcher(before), before, after), r, w);
    }
  }

  /** A request that succeeds has committed its selection, completely. */
  lemma ApplyConcludes(v: Volume, r: Request, w: World)
    requires Safe(v) && ApplyPlan(v, r, w).result.Ok?
    ensures Concluded(Replay(v, ApplyPlan(v, r, w).writes), r, w, ApplyPlan(v, r, w).result.value)
  {
    if ReadPending(v).Absent? {
      FreshConcludes(v, r, w);
    } else {
      var t := ReadPending(v).value;
      if Restores(r, t) {
        var restored := Transition(None, Some(t.after.dispatcher), Observed(ReadActive(v)), t.before.value);
        CommitConcludes(v, restored, r, w);
      } else if Requested(r) == t.requested {
        FinishConcludes(v, t, r, w);
      } else {
        var done := FinishPlan(v, t, w);
        var v1 := Replay(v, done.writes);
        FreshConcludes(v1, r, w);
        ReplayConcat(v, done.writes, FreshPlan(v1, r, w).writes);
      }
    }
  }

  /** A concluded installation launches, and what runs is the selected executable. */
  lemma ConcludedLaunches(v: Volume, r: Request, w: World, s: Selection)
    requires Concluded(v, r, w, s)
    ensures
      var files := Directory(v, s.current);
      Executable in files && LaunchPlan(v).result == Ok(files[Executable])
  {
    LaunchExactly(v);
  }

  /** The installation that has just succeeded reports the same selection to
      `--status`, which also finds that the entry runs the version it selects. */
  lemma ApplyThenStatus(v: Volume, r: Request, w: World, prints: Content -> string)
    requires Safe(v) && ApplyPlan(v, r, w).result.Ok?
    ensures Status(Replay(v, ApplyPlan(v, r, w).writes), r.expected, prints) == ApplyPlan(v, r, w).result
  {
    hide ApplyPlan, LaunchPlan, Safe, ImageOf;
    ApplyConcludes(v, r, w);
    ConcludedLaunches(Replay(v, ApplyPlan(v, r, w).writes), r, w, ApplyPlan(v, r, w).result.value);
  }

  // ----- Repeating a request that already succeeded -----

  /** Requests that name what they want: any installation from an intact
      package, and a rollback with `--expect`. */
  predicate Repeatable(r: Request) {
    match r.action
    case Install(source, _) => Qualified(source)
    case Rollback => r.expected.Some?
  }

  lemma RecommitIsIdle(v: Volume, t: Transition, r: Request, w: World)
    requires Concluded(v, r, w, t.after)
    requires t.before == Some(t.after)
    ensures CommitPlan(v, t, w).result == Ok(t.after)
    ensures Replay(v, CommitPlan(v, t, w).writes) == v
  {
    var v1 := Perform(v, Put(Pending, TransitionDoc(t)));
    assert SameSlots(v, v1);
    SameDirectory(v, v1, t.after.current);
    SameDirectory(v, v1, t.after.dispatcher);
    if t.after.previous.Some? {
      SameDirectory(v, v1, t.after.previous.value);
    }
    assert FinishPlan(v1, t, w).result.Ok?;
    FinishSettles(v1, t, w);
    assert CommitPlan(v, t, w).writes[1..] == FinishPlan(v1, t, w).writes;
    assert Settled(v1, t.after) == v;
  }

  lemma RepeatIsIdle(v: Volume, r: Request, w: World, s: Selection)
    requires Concluded(v, r, w, s) && Repeatable(r)
    ensures Reaches(v, r, w, s, v)
  {
    var t := Transition(Requested(r), Some(s.dispatcher), Some(s), s);
    if r.action.Install? {
      StageVerified(v, r.action.source);
      assert InstallTarget(r.action.source.release, Some(s), None) == s;
      assert [] + ChangePlan(v, r, Some(s), s, w).writes == ChangePlan(v, r, Some(s), s, w).writes;
    } else {
      assert RollbackTarget(v, s, r.expected) == Ok(s);
    }
    RecommitIsIdle(v, t, r, w);
  }

  // ----- Attempts in a hostile world -----

  /** One run of the installer: the world it met, and how many of its durable
      writes it completed before it lost power. */
  datatype Attempt = Attempt(world: World, power: nat)

  function AfterAttempt(v: Volume, r: Request, a: Attempt): Volume {
    var ws := ApplyPlan(v, r, a.world).writes;
    Replay(v, ws[..Min(a.power, |ws|)])
  }

  function AfterAttempts(v: Volume, r: Request, attempts: seq<Attempt>): Volume
    decreases |attempts|
  {
    if attempts == [] then v else AfterAttempts(AfterAttempt(v, r, attempts[0]), r, attempts[1..])
  }

  /** `w` answers every probe at least as well as `a`. */
  predicate Kinder(a: World, w: World) {
    a.healthy <= w.healthy && (a.registers ==> w.registers)
  }

  lemma FinishInWorseWorld(v: Volume, t: Transition, a: World, w: World)
    requires Kinder(a, w)
    ensures FinishPlan(v, t, a).writes <= FinishPlan(v, t, w).writes
    ensures FinishPlan(v, t, a).result.Ok? ==> FinishPlan(v, t, a) == FinishPlan(v, t, w)
  {
    var boot := BootstrapPlan(v, t.fromDispatcher, t.after).writes;
    var select := [Put(Active, SelectionDoc(t.after))];
    assert boot + [] == boot;
    assert boot + select + [] + [Drop(Pending)] == boot + select + [Drop(Pending)];
    assert boot + [] + select + [Drop(Pending)] == boot + select + [Drop(Pending)];
  }

  lemma ChangeInWorseWorld(v: Volume, r: Request, before: Option<Selection>, after: Selection, a: World, w: World)
    requires Kinder(a, w)
    ensures ChangePlan(v, r, before, after, a).writes <= ChangePlan(v, r, before, after, w).writes
  {
    var t := Transition(Requested(r), Dispatcher(before), before, after);
    FinishInWorseWorld(Perform(v, Put(Pending, TransitionDoc(t))), t, a, w);
    hide FinishPlan, Verified, Valid;
  }

  lemma FreshInWorseWorld(v: Volume, r: Request, a: World, w: World)
    requires Kinder(a, w)
    ensures FreshPlan(v, r, a).writes <= FreshPlan(v, r, w).writes
  {
    hide ChangePlan, ImportPlan, Replay, Valid, Kinder, RollbackTarget, InstallTarget;
    var active := ReadActive(v);
    if !active.Corrupt? {
      var before := Observed(active);
      if r.action.Install? {
        var stage := ImportPlan(v, r.action.source, r.action.predecessor, before == None);
        if stage.result.Ok? {
          var after := InstallTarget(r.action.source.release, before, stage.result.value);
          ChangeInWorseWorld(Replay(v, stage.writes), r, before, after, a, w);
        }
      } else if before.Some? {
        var after := RollbackTarget(v, before.value, r.expected);
        if after.Ok? {
          ChangeInWorseWorld(v, r, before, after.value, a, w);
        }
      }
    }
  }

  /** A failed probe or registration only stops the run early: it never writes
      anything the successful run would not have written at that point. */
  lemma ApplyInWorseWorld(v: Volume, r: Request, a: World, w: World)
    requires Kinder(a, w)
    ensures ApplyPlan(v, r, a).writes <= ApplyPlan(v, r, w).writes
  {
    var pending := ReadPending(v);
    if pending.Absent? {
      FreshInWorseWorld(v, r, a, w);
    } else if pending.Holding? {
      var t := pending.value;
      if Restores(r, t) {
        if !ReadActive(v).Corrupt? {
          var restored := Transition(None, Some(t.after.dispatcher), Observed(ReadActive(v)), t.before.value);
          FinishInWorseWorld(Perform(v, Put(Pending, TransitionDoc(restored))), restored, a, w);
        }
      } else {
        FinishInWorseWorld(v, t, a, w);
        if FinishPlan(v, t, a).result.Ok? {
          FreshInWorseWorld(Replay(v, FinishPlan(v, t, a).writes), r, a, w);
        }
      }
    }
  }

  lemma AttemptConverges(v: Volume, r: Request, a: Attempt, w: World)
    requires Safe(v) && Repeatable(r) && Kinder(a.world, w)
    requires ApplyPlan(v, r, w).result.Ok?
    ensures Safe(AfterAttempt(v, r, a))
    ensures
      var p := ApplyPlan(v, r, w);
      Reaches(AfterAttempt(v, r, a), r, w, p.result.value, Replay(v, p.writes))
  {
    var p := ApplyPlan(v, r, w);
    var ws := ApplyPlan(v, r, a.world).writes;
    var k := Min(a.power, |ws|);
    ApplyInWorseWorld(v, r, a.world, w);
    assert ws[..k] == p.writes[..k];
    ApplyKeepsSafe(v, r, w);
    ThroughoutPrefix(v, p.writes, Safe, k);
    if k < |p.writes| {
      ApplyResumes(v, r, w, k);
    } else {
      assert p.writes[..k] == p.writes;
      ApplyConcludes(v, r, w);
      RepeatIsIdle(Replay(v, p.writes), r, w, p.result.value);
    }
  }

  /** Convergence. However many attempts are cut short, at whatever durable
      write, and whichever probes fail on the way, repeating the request in a
      good world ends with the selection, and on the very volume, that one
      undisturbed run would have produced. */
  lemma {:induction false} RecoveryConverges(v: Volume, r: Request, attempts: seq<Attempt>, w: World)
    requires Safe(v) && Repeatable(r)
    requires forall a :: a in attempts ==> Kinder(a.world, w)
    requires ApplyPlan(v, r, w).result.Ok?
    ensures
      var p := ApplyPlan(v, r, w);
      Reaches(AfterAttempts(v, r, attempts), r, w, p.result.value, Replay(v, p.writes))
    decreases |attempts|
  {
    if attempts != [] {
      AttemptConverges(v, r, attempts[0], w);
      RecoveryConverges(AfterAttempt(v, r, attempts[0]), r, attempts[1..], w);
    }
  }

  /** Without `--expect`, a rollback may be repeated exactly as long as its last
      durable step has not happened; after it, the repetition rolls back again. */
  lemma UnpinnedRollbackRetry(v: Volume, w: World, k: nat)
    requires Safe(v) && ApplyPlan(v, Request(Rollback, None), w).result.Ok?
    requires k <= |ApplyPlan(v, Request(Rollback, None), w).writes|
    ensures
      var r := Request(Rollback, None);
      var p := ApplyPlan(v, r, w);
      Reaches(Replay(v, p.writes[..k]), r, w, p.result.value, Replay(v, p.writes)) <==> k < |p.writes|
  {
    hide FinishPlan, Verified, Replay, ImportPlan, Safe;
    var r := Request(Rollback, None);
    var p := ApplyPlan(v, r, w);
    if k < |p.writes| {
      ApplyResumes(v, r, w, k);
    } else {
      assert p.writes[..k] == p.writes;
      ApplyConcludes(v, r, w);
    }
  }

  // ----- Rollback -----

  /** Rolling back right after installing a different release selects the
      release that was current before, and remembers the one left. */
  lemma RollbackUndoesInstall(v: Volume, r: Request, w: World, x: World, expected: Option<Id>)
    requires Safe(v) && ReadPending(v).Absent? && ReadActive(v).Holding?
    requires r.action.Install? && r.action.source.release != ReadActive(v).value.current
    requires ApplyPlan(v, r, w).result.Ok?
    requires expected == None || expected == Some(ReadActive(v).value.current)
    ensures
      var u := Replay(v, ApplyPlan(v, r, w).writes);
      var back := ApplyPlan(u, Request(Rollback, expected), x);
      back.result.Ok? ==>
        back.result.value ==
          Selection(ReadActive(v).value.current, Some(r.action.source.release), r.action.source.release)
  {
    hide FinishPlan, Verified, Replay, ImportPlan, Safe;
    FreshInstallIs(v, r, w);
    ApplyConcludes(v, r, w);
  }

  /** Two rollbacks restore the very selection they started from. */
  lemma RollbackTwice(v: Volume, w: World, x: World)
    requires Safe(v) && ReadPending(v).Absent? && ReadActive(v).Holding?
    requires Verified(v, ReadActive(v).value.current)
    requires ApplyPlan(v, Request(Rollback, None), w).result.Ok?
    ensures
      var u := Replay(v, ApplyPlan(v, Request(Rollback, None), w).writes);
      var again := ApplyPlan(u, Request(Rollback, None), x);
      again.result.Ok? ==> again.result.value == ReadActive(v).value
  {
    hide FinishPlan, Verified, Replay, ImportPlan, Safe;
    var r := Request(Rollback, None);
    ApplyConcludes(v, r, w);
    var s := ReadActive(v).value;
    var u := Replay(v, ApplyPlan(v, r, w).writes);
    assert ApplyPlan(v, r, w).result.value == Selection(s.previous.value, Some(s.current), s.dispatcher);
    assert Verified(u, s.previous.value);
  }

  /** A rollback that meets an interrupted activation restores everything that
      was selected before it, and never the release that failed to activate. */
  lemma RollbackRestoresInterrupted(v: Volume, expected: Option<Id>, w: World)
    requires Safe(v) && ReadPending(v).Holding?
    requires ReadPending(v).value.requested.Some? && ReadPending(v).value.before.Some?
    ensures
      var t := ReadPending(v).value;
      var p := ApplyPlan(v, Request(Rollback, expected), w);
      p.result.Ok? ==>
        && p.result.value == t.before.value
        && ReadActive(Replay(v, p.writes)) == Holding(t.before.value)
        && EntryIs(Replay(v, p.writes), Some(t.before.value.dispatcher))
  {
    var r := Request(Rollback, expected);
    if ApplyPlan(v, r, w).result.Ok? {
      ApplyConcludes(v, r, w);
    }
  }
}
