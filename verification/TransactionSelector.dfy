/** What the selector and the transition record keep by themselves, whatever bytes the
    entry holds. */
module TransactionSelector {
  import opened Outcome
  import opened Package
  import opened Transaction
  import opened TransactionSafety

  /** What a recorded transition says about the selector it is recorded beside. */
  predicate Noted(v: Volume, t: Transition)
    requires !ReadActive(v).Corrupt?
  {
    var active := Observed(ReadActive(v));
    && Valid(t.after)
    && (t.before.Some? ==> Valid(t.before.value))
    && (active == t.before || active == Some(t.after))
    && (t.requested.Some? ==>
          && t.after.current == t.requested.value
          && t.after.dispatcher == t.requested.value
          && t.fromDispatcher == Dispatcher(t.before))
    && (t.requested.None? ==> t.before.Some?)
  }

  /** The clauses of the crash invariant that do not read the bytes of the entry. */
  predicate Ordered(v: Volume) {
    var active := ReadActive(v);
    var pending := ReadPending(v);
    && !active.Corrupt?
    && !pending.Corrupt?
    && (active.Holding? ==> Valid(active.value) && Entry in v)
    && (pending.Holding? ==> Noted(v, pending.value))
    && (pending.Absent? && active.Absent? ==> Entry !in v)
  }

  /** The clauses that do. */
  predicate EntryFits(v: Volume)
    requires Ordered(v)
  {
    var active := Observed(ReadActive(v));
    match ReadPending(v)
    case Absent => active.Some? ==> EntryIs(v, Some(active.value.dispatcher))
    case Holding(t) =>
      && (Entry in v ==> EntryIs(v, Some(t.after.dispatcher)) || EntryIs(v, t.fromDispatcher))
      && (active != t.before ==> EntryIs(v, Some(t.after.dispatcher)))
  }

  lemma SafeIsBoth(v: Volume)
    ensures Safe(v) <==> Ordered(v) && EntryFits(v)
  {
  }

  lemma {:induction false} SlotPutsKeepOrdered(v: Volume, ws: seq<Write>)
    requires Ordered(v)
    requires forall w :: w in ws ==> IsSlotPut(w)
    ensures Throughout(v, ws, Ordered)
    ensures ReadPending(Replay(v, ws)) == ReadPending(v)
    ensures ReadActive(Replay(v, ws)) == ReadActive(v)
    decreases |ws|
  {
    if ws != [] {
      assert IsSlotPut(ws[0]);
      SlotPutsKeepOrdered(Perform(v, ws[0]), ws[1..]);
    }
  }

  lemma BootstrapKeepsOrdered(v: Volume, t: Transition)
    requires Ordered(v) && ReadPending(v) == Holding(t)
    ensures
      var boot := BootstrapPlan(v, t.fromDispatcher, t.after);
      && Throughout(v, boot.writes, Ordered)
      && ReadPending(Replay(v, boot.writes)) == Holding(t)
      && ReadActive(Replay(v, boot.writes)) == ReadActive(v)
      && (boot.result.Ok? ==> Entry in Replay(v, boot.writes))
  {
    var boot := BootstrapPlan(v, t.fromDispatcher, t.after);
    if boot.writes != [] {
      ThroughoutOne(v, boot.writes[0], Ordered);
    }
  }

  lemma FinishKeepsOrdered(v: Volume, t: Transition, w: World)
    requires Ordered(v) && ReadPending(v) == Holding(t)
    ensures
      var p := FinishPlan(v, t, w);
      && Throughout(v, p.writes, Ordered)
      && (p.result.Ok? ==> ReadPending(Replay(v, p.writes)) == Absent)
  {
    hide BootstrapPlan, Startable, EntryIs;
    var p := FinishPlan(v, t, w);
    var boot := BootstrapPlan(v, t.fromDispatcher, t.after);
    BootstrapKeepsOrdered(v, t);
    assert boot.writes + [] == boot.writes;
    if p.writes != boot.writes && p.writes != [] {
      var write := Put(Active, SelectionDoc(t.after));
      var v1 := Replay(v, boot.writes);
      if ReadActive(v).Absent? || w.registers {
        ThroughoutOne(v1, write, Ordered);
        ThroughoutConcat(v, boot.writes, [write], Ordered);
        ReplayConcat(v, boot.writes, [write]);
      }
      if w.registers && p.result.Ok? {
        var v2 := Perform(v1, write);
        ThroughoutOne(v2, Drop(Pending), Ordered);
        ThroughoutConcat(v, boot.writes + [write], [Drop(Pending)], Ordered);
        ReplayConcat(v, boot.writes + [write], [Drop(Pending)]);
        assert p.writes == boot.writes + [write] + [Drop(Pending)];
      } else {
        assert p.writes == boot.writes + [write];
      }
    }
  }

  lemma CommitKeepsOrdered(v: Volume, t: Transition, w: World)
    requires Ordered(v) && Noted(v, t)
    ensures Throughout(v, CommitPlan(v, t, w).writes, Ordered)
  {
    var record := Put(Pending, TransitionDoc(t));
    var v1 := Perform(v, record);
    assert ReadActive(v1) == ReadActive(v);
    ThroughoutOne(v, record, Ordered);
    FinishKeepsOrdered(v1, t, w);
    ThroughoutConcat(v, [record], FinishPlan(v1, t, w).writes, Ordered);
  }

  lemma ChangeKeepsOrdered(v: Volume, r: Request, before: Option<Selection>, after: Selection, w: World)
    requires Ordered(v) && Observed(ReadActive(v)) == before
    requires r.action.Install? ==> after.current == after.dispatcher == r.action.source.release
    requires r.action.Rollback? ==> before.Some?
    ensures Throughout(v, ChangePlan(v, r, before, after, w).writes, Ordered)
  {
    if ChangePlan(v, r, before, after, w).writes != [] {
      CommitKeepsOrdered(v, Transition(Requested(r), Dispatcher(before), before, after), w);
    }
  }

  lemma FreshKeepsOrdered(v: Volume, r: Request, w: World)
    requires Ordered(v)
    ensures Throughout(v, FreshPlan(v, r, w).writes, Ordered)
  {
    var before := Observed(ReadActive(v));
    if r.action.Install? {
      var stage := ImportPlan(v, r.action.source, r.action.predecessor, before == None);
      ImportPutsSlots(v, r.action.source, r.action.predecessor, before == None);
      SlotPutsKeepOrdered(v, stage.writes);
      ThroughoutEnd(v, stage.writes, Ordered);
      if stage.result.Ok? {
        var after := InstallTarget(r.action.source.release, before, stage.result.value);
        var v1 := Replay(v, stage.writes);
        ChangeKeepsOrdered(v1, r, before, after, w);
        ThroughoutConcat(v, stage.writes, ChangePlan(v1, r, before, after, w).writes, Ordered);
      }
    } else if before.Some? {
      var after := RollbackTarget(v, before.value, r.expected);
      if after.Ok? {
        ChangeKeepsOrdered(v, r, before, after.value, w);
      }
    }
  }

  /** Every durable step of every request keeps the selector and the record in order,
      even if the entry has been overwritten. */
  lemma ApplyKeepsOrdered(v: Volume, r: Request, w: World)
    requires Ordered(v)
    ensures Throughout(v, ApplyPlan(v, r, w).writes, Ordered)
  {
    var pending := ReadPending(v);
    if pending.Absent? {
      FreshKeepsOrdered(v, r, w);
    } else {
      var t := pending.value;
      if Restores(r, t) {
        if RestorePlan(v, r, t, w).writes != [] {
          CommitKeepsOrdered(v, Transition(None, Some(t.after.dispatcher), Observed(ReadActive(v)), t.before.value), w);
        }
      } else {
        FinishKeepsOrdered(v, t, w);
        var done := FinishPlan(v, t, w);
        if done.result.Ok? && Requested(r) != t.requested {
          var v1 := Replay(v, done.writes);
          ThroughoutEnd(v, done.writes, Ordered);
          FreshKeepsOrdered(v1, r, w);
          ThroughoutConcat(v, done.writes, FreshPlan(v1, r, w).writes, Ordered);
        }
      }
    }
  }
}
