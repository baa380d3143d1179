/** Releases that are named stay complete, and what follows: interrupted requests
    complete, rollbacks succeed and the product launches. */
module TransactionRuns {
  import opened Outcome
  import opened Package
  import opened Transaction
  import opened TransactionSafety
  import opened TransactionRecovery

  // ----- Referenced releases stay complete -----

  predicate AllVerified(v: Volume, s: Selection) {
    && Verified(v, s.current)
    && Verified(v, s.dispatcher)
    && (s.previous.Some? ==> Verified(v, s.previous.value))
  }

  /** Every release the selector or the pending transition names is complete. */
  predicate Stocked(v: Volume) {
    && (ReadActive(v).Holding? ==> AllVerified(v, ReadActive(v).value))
    && (ReadPending(v).Holding? ==>
          var t := ReadPending(v).value;
          && AllVerified(v, t.after)
          && (t.before.Some? ==> AllVerified(v, t.before.value))
          && (t.fromDispatcher.Some? ==> Verified(v, t.fromDispatcher.value)))
  }

  lemma AllVerifiedKept(v: Volume, u: Volume, s: Selection)
    requires SlotsKept(v, u) && AllVerified(v, s)
    ensures AllVerified(u, s)
  {
    VerifiedKept(v, u, s.current);
    VerifiedKept(v, u, s.dispatcher);
    if s.previous.Some? {
      VerifiedKept(v, u, s.previous.value);
    }
  }

  lemma StockedKept(v: Volume, u: Volume)
    requires SlotsKept(v, u) && Stocked(v)
    requires ReadActive(u) == ReadActive(v)
             || (ReadPending(v).Holding? && ReadActive(u) == Holding(ReadPending(v).value.after))
    requires ReadPending(u) == ReadPending(v) || ReadPending(u).Absent?
    ensures Stocked(u)
  {
    if ReadActive(v).Holding? {
      AllVerifiedKept(v, u, ReadActive(v).value);
    }
    if ReadPending(v).Holding? {
      var t := ReadPending(v).value;
      AllVerifiedKept(v, u, t.after);
      if t.before.Some? {
        AllVerifiedKept(v, u, t.before.value);
      }
      if t.fromDispatcher.Some? {
        VerifiedKept(v, u, t.fromDispatcher.value);
      }
    }
  }

  lemma {:induction false} SlotPutsKeepStocked(v: Volume, ws: seq<Write>, full: Volume)
    requires Stocked(v) && Within(v, full) && PutsInto(ws, full)
    requires forall w :: w in ws ==> IsSlotPut(w)
    ensures Throughout(v, ws, Stocked)
    decreases |ws|
  {
    if ws != [] {
      assert ws[0] in ws && IsSlotPut(ws[0]);
      StockedKept(v, Perform(v, ws[0]));
      SlotPutsKeepStocked(Perform(v, ws[0]), ws[1..], full);
    }
  }

  lemma StageKeepsStocked(v: Volume, source: Source)
    requires Stocked(v)
    ensures Throughout(v, StagePlan(v, source).writes, Stocked)
    ensures SlotsKept(v, Replay(v, StagePlan(v, source).writes))
    ensures StagePlan(v, source).result.Ok? ==> Verified(Replay(v, StagePlan(v, source).writes), source.release)
  {
    if Qualified(source) && !Misbuilt(v, source) {
      QualifiedHasFiles(source);
      MissingLists(v, source, STAGED);
      MissingPutsSlots(v, source, STAGED);
      SlotPutsKeepStocked(v, Missing(v, source, STAGED), Filled(v, source, STAGED));
      StageFills(v, source, 0);
    }
  }

  lemma ImportKeepsStocked(v: Volume, source: Source, predecessor: Option<Source>, first: bool)
    requires Stocked(v)
    ensures
      var p := ImportPlan(v, source, predecessor, first);
      && Throughout(v, p.writes, Stocked)
      && Stocked(Replay(v, p.writes))
      && SlotsKept(v, Replay(v, p.writes))
      && (p.result.Ok? ==> Verified(Replay(v, p.writes), source.release))
      && (p.result.Ok? && p.result.value.Some? ==> Verified(Replay(v, p.writes), p.result.value.value))
  {
    StageKeepsStocked(v, source);
    var target := StagePlan(v, source);
    var v1 := Replay(v, target.writes);
    ThroughoutEnd(v, target.writes, Stocked);
    if target.result.Ok? && first && predecessor.Some? {
      StageKeepsStocked(v1, predecessor.value);
      var imported := StagePlan(v1, predecessor.value);
      ThroughoutConcat(v, target.writes, imported.writes, Stocked);
      ReplayConcat(v, target.writes, imported.writes);
      ThroughoutEnd(v1, imported.writes, Stocked);
      VerifiedKept(v1, Replay(v1, imported.writes), source.release);
    }
  }

  predicate IsFinishWrite(w: Write, t: Transition) {
    || (w.Put? && w.path == Entry)
    || w == Put(Active, SelectionDoc(t.after))
    || w == Drop(Pending)
  }

  lemma FinishWritesAre(v: Volume, t: Transition, w: World)
    ensures forall x :: x in FinishPlan(v, t, w).writes ==> IsFinishWrite(x, t)
  {
  }

  lemma {:induction false} FinishWritesKeepStocked(v: Volume, t: Transition, ws: seq<Write>)
    requires Stocked(v) && AllVerified(v, t.after)
    requires ReadPending(v) == Holding(t) || ReadPending(v).Absent?
    requires forall w :: w in ws ==> IsFinishWrite(w, t)
    ensures Throughout(v, ws, Stocked)
    decreases |ws|
  {
    if ws != [] {
      assert IsFinishWrite(ws[0], t);
      var u := Perform(v, ws[0]);
      AllVerifiedKept(v, u, t.after);
      if ReadPending(v).Absent? {
        if ReadActive(v).Holding? {
          AllVerifiedKept(v, u, ReadActive(v).value);
        }
      } else {
        StockedKept(v, u);
      }
      FinishWritesKeepStocked(u, t, ws[1..]);
    }
  }

  lemma CommitKeepsStocked(v: Volume, t: Transition, w: World)
    requires Stocked(v) && AllVerified(v, t.after)
    requires t.before.Some? ==> AllVerified(v, t.before.value)
    requires t.fromDispatcher.Some? ==> Verified(v, t.fromDispatcher.value)
    ensures Throughout(v, CommitPlan(v, t, w).writes, Stocked)
  {
    hide FinishPlan, Verified, IsFinishWrite;
    var u := Perform(v, Put(Pending, TransitionDoc(t)));
    AllVerifiedKept(v, u, t.after);
    if t.before.Some? {
      AllVerifiedKept(v, u, t.before.value);
    }
    if t.fromDispatcher.Some? {
      VerifiedKept(v, u, t.fromDispatcher.value);
    }
    if ReadActive(v).Holding? {
      AllVerifiedKept(v, u, ReadActive(v).value);
    }
    var ws := FinishPlan(u, t, w).writes;
    FinishWritesAre(u, t, w);
    FinishWritesKeepStocked(u, t, ws);
    assert CommitPlan(v, t, w).writes[1..] == ws;
  }

  lemma ChangeKeepsStocked(v: Volume, r: Request, after: Selection, w: World)
    requires Stocked(v) && AllVerified(v, after) && !ReadActive(v).Corrupt?
    ensures Throughout(v, ChangePlan(v, r, Observed(ReadActive(v)), after, w).writes, Stocked)
  {
    var before := Observed(ReadActive(v));
    if ChangePlan(v, r, before, after, w).writes != [] {
      CommitKeepsStocked(v, Transition(Requested(r), Dispatcher(before), before, after), w);
    }
  }

  lemma FreshKeepsStocked(v: Volume, r: Request, w: World)
    requires Safe(v) && Stocked(v)
    ensures Throughout(v, FreshPlan(v, r, w).writes, Stocked)
  {
    var before := Observed(ReadActive(v));
    if r.action.Install? {
      var source, predecessor := r.action.source, r.action.predecessor;
      var stage := ImportPlan(v, source, predecessor, before == None);
      ImportKeepsStocked(v, source, predecessor, before == None);
      if stage.result.Ok? {
        var v1 := Replay(v, stage.writes);
        ImportPutsSlots(v, source, predecessor, before == None);
        SlotPutsKeepReceipts(v, stage.writes);
        var after := InstallTarget(source.release, before, stage.result.value);
        if before.Some? {
          AllVerifiedKept(v, v1, before.value);
        }
        ChangeKeepsStocked(v1, r, after, w);
        ThroughoutConcat(v, stage.writes, ChangePlan(v1, r, before, after, w).writes, Stocked);
      }
    } else if before.Some? {
      var after := RollbackTarget(v, before.value, r.expected);
      if after.Ok? {
        ChangeKeepsStocked(v, r, after.value, w);
      }
    }
  }

  lemma FinishKeepsStocked(v: Volume, t: Transition, w: World)
    requires Stocked(v) && ReadPending(v) == Holding(t)
    ensures Throughout(v, FinishPlan(v, t, w).writes, Stocked)
  {
    FinishWritesAre(v, t, w);
    FinishWritesKeepStocked(v, t, FinishPlan(v, t, w).writes);
  }

  /** No request ever names a release that is not completely staged. */
  lemma ApplyKeepsStocked(v: Volume, r: Request, w: World)
    requires Safe(v) && Stocked(v)
    ensures Throughout(v, ApplyPlan(v, r, w).writes, Stocked)
  {
    if ReadPending(v).Absent? {
      FreshKeepsStocked(v, r, w);
    } else {
      var t := ReadPending(v).value;
      if Restores(r, t) {
        if RestorePlan(v, r, t, w).writes != [] {
          var active := Observed(ReadActive(v));
          CommitKeepsStocked(v, Transition(None, Some(t.after.dispatcher), active, t.before.value), w);
        }
      } else {
        FinishKeepsStocked(v, t, w);
        FinishKeepsSafe(v, t, w);
        var done := FinishPlan(v, t, w);
        if done.result.Ok? && Requested(r) != t.requested {
          var v1 := Replay(v, done.writes);
          ThroughoutEnd(v, done.writes, Safe);
          ThroughoutEnd(v, done.writes, Stocked);
          FreshKeepsStocked(v1, r, w);
          ThroughoutConcat(v, done.writes, FreshPlan(v1, r, w).writes, Stocked);
        }
      }
    }
  }

  // ----- Liveness -----

  /** With intact releases and a world that answers, an interrupted transaction
      always completes: it can never wedge the installation. */
  lemma PendingAlwaysCompletes(v: Volume, w: World)
    requires Safe(v) && Stocked(v) && ReadPending(v).Holding?
    requires w.registers && ReadPending(v).value.after.current in w.healthy
    ensures FinishPlan(v, ReadPending(v).value, w).result.Ok?
  {
  }

  /** Once recorded, such a transition is finished. */
  lemma RecordedCompletes(v: Volume, t: Transition, w: World)
    requires Safe(v) && Stocked(v) && Recorded(v, t) && AllVerified(v, t.after)
    requires t.before.Some? ==> AllVerified(v, t.before.value)
    requires t.fromDispatcher.Some? ==> Verified(v, t.fromDispatcher.value)
    requires w.registers && t.after.current in w.healthy
    ensures CommitPlan(v, t, w).result.Ok?
  {
    hide FinishPlan, Safe, Stocked, AllVerified;
    var ws := CommitPlan(v, t, w).writes;
    CommitKeepsStocked(v, t, w);
    CommitKeepsSafe(v, t, w);
    ThroughoutPrefix(v, ws, Safe, 1);
    ThroughoutPrefix(v, ws, Stocked, 1);
    assert ws[..1] == [Put(Pending, TransitionDoc(t))];
    var u := Perform(v, Put(Pending, TransitionDoc(t)));
    assert Replay(u, ws[..1][1..]) == u;
    PendingAlwaysCompletes(u, w);
  }

  /** With intact releases and a world that answers, a rollback succeeds exactly
      when there is something to roll back to that the caller accepts. */
  lemma RollbackSucceeds(v: Volume, expected: Option<Id>, w: World)
    requires Safe(v) && Stocked(v) && ReadPending(v).Absent? && ReadActive(v).Holding?
    requires w.registers && ReadActive(v).value.current in w.healthy
    requires ReadActive(v).value.previous.Some? ==> ReadActive(v).value.previous.value in w.healthy
    ensures
      var s := ReadActive(v).value;
      ApplyPlan(v, Request(Rollback, expected), w).result.Ok? <==>
        || expected == Some(s.current)
        || (s.previous.Some? && (expected == None || expected == s.previous))
  {
    hide FinishPlan, Complete, Directory, ImportPlan;
    var s := ReadActive(v).value;
    var r := Request(Rollback, expected);
    var after := RollbackTarget(v, s, expected);
    if after.Ok? && Meets(after.value, expected) {
      var t := Transition(None, Some(s.dispatcher), Some(s), after.value);
      RecordedCompletes(v, t, w);
    }
  }

  /** With intact releases and a world that answers, a rollback that meets an
      interrupted activation succeeds exactly when the caller accepts what it restores. */
  lemma RestoreSucceeds(v: Volume, expected: Option<Id>, w: World)
    requires Safe(v) && Stocked(v) && ReadPending(v).Holding? && w.registers
    requires Restores(Request(Rollback, expected), ReadPending(v).value)
    requires ReadPending(v).value.before.value.current in w.healthy
    ensures ApplyPlan(v, Request(Rollback, expected), w).result.Ok?
        <==> Meets(ReadPending(v).value.before.value, expected)
  {
    hide FinishPlan, Verified;
    var t := ReadPending(v).value;
    var active := Observed(ReadActive(v));
    if Meets(t.before.value, expected) {
      var restored := Transition(None, Some(t.after.dispatcher), active, t.before.value);
      RecordedCompletes(v, restored, w);
    }
  }

  // ----- Launches -----

  lemma LaunchIsAvailable(v: Volume)
    requires Safe(v) && Stocked(v) && ReadActive(v).Holding?
    ensures LaunchPlan(v).result.Ok?
  {
  }
}
