/** What every crash point of the installer keeps. */
module TransactionSafety {
  import opened Outcome
  import opened Package
  import opened Transaction

  // ----- Properties of every crash point of a plan -----

  /** `p` holds after every prefix of `ws`: no power loss can break it. */
  ghost predicate Throughout(v: Volume, ws: seq<Write>, p: Volume -> bool)
    decreases |ws|
  {
    p(v) && (ws != [] ==> Throughout(Perform(v, ws[0]), ws[1..], p))
  }

  lemma {:induction false} ThroughoutPrefix(v: Volume, ws: seq<Write>, p: Volume -> bool, k: nat)
    requires Throughout(v, ws, p) && k <= |ws|
    ensures p(Replay(v, ws[..k]))
    ensures Throughout(Replay(v, ws[..k]), ws[k..], p)
    decreases |ws|
  {
    if k > 0 {
      ThroughoutPrefix(Perform(v, ws[0]), ws[1..], p, k - 1);
      assert ws[..k][0] == ws[0] && ws[..k][1..] == ws[1..][..k - 1];
      assert ws[1..][k - 1..] == ws[k..];
    } else {
      assert ws[..0] == [] && ws[0..] == ws;
    }
  }

  lemma ThroughoutEnd(v: Volume, ws: seq<Write>, p: Volume -> bool)
    requires Throughout(v, ws, p)
    ensures p(Replay(v, ws))
  {
    ThroughoutPrefix(v, ws, p, |ws|);
    assert ws[..|ws|] == ws;
  }

  lemma {:induction false} ThroughoutConcat(v: Volume, a: seq<Write>, b: seq<Write>, p: Volume -> bool)
    requires Throughout(v, a, p)
    requires Throughout(Replay(v, a), b, p)
    ensures Throughout(v, a + b, p)
    decreases |a|
  {
    if a == [] {
      assert a + b == b;
    } else {
      ThroughoutConcat(Perform(v, a[0]), a[1..], b, p);
      assert (a + b)[1..] == a[1..] + b;
    }
  }

  lemma ThroughoutOne(v: Volume, w: Write, p: Volume -> bool)
    requires p(v) && p(Perform(v, w))
    ensures Throughout(v, [w], p)
    ensures Replay(v, [w]) == Perform(v, w)
  {
    assert [w][1..] == [];
  }

  // ----- The crash invariant -----

  predicate EntryIs(v: Volume, id: Option<Id>) {
    id.Some? && Entry in v && ImageOf(id.value, v[Entry])
  }

  function Dispatcher(s: Option<Selection>): Option<Id> {
    if s == None then None else Some(s.value.dispatcher)
  }

  /** What a recorded transition says about the volume it is recorded on. */
  predicate Recorded(v: Volume, t: Transition)
    requires !ReadActive(v).Corrupt?
  {
    var active := Observed(ReadActive(v));
    && Valid(t.after)
    && (t.before.Some? ==> Valid(t.before.value))
    && (active == t.before || active == Some(t.after))
    && (Entry in v ==> EntryIs(v, Some(t.after.dispatcher)) || EntryIs(v, t.fromDispatcher))
    && (active != t.before ==> EntryIs(v, Some(t.after.dispatcher)))
    && (t.requested.Some? ==>
          && t.after.current == t.requested.value
          && t.after.dispatcher == t.requested.value
          && t.fromDispatcher == Dispatcher(t.before))
    && (t.requested.None? ==> t.before.Some?)
  }

  /** The crash invariant of the selector, the transition record and the entry. */
  predicate Safe(v: Volume) {
    var active := ReadActive(v);
    var pending := ReadPending(v);
    && !active.Corrupt?
    && !pending.Corrupt?
    && (active.Holding? ==> Valid(active.value) && Entry in v)
    && (pending.Holding? ==> Recorded(v, pending.value))
    && (pending.Absent? ==> active.Holding? ==> EntryIs(v, Some(active.value.dispatcher)))
    && (pending.Absent? && active.Absent? ==> Entry !in v)
  }

  predicate IsSlotPut(w: Write) {
    w.Put? && w.path.Slot?
  }

  lemma {:induction false} SlotPutsKeepSafe(v: Volume, ws: seq<Write>)
    requires Safe(v)
    requires forall w :: w in ws ==> IsSlotPut(w)
    ensures Throughout(v, ws, Safe)
    ensures ReadPending(Replay(v, ws)) == ReadPending(v)
    ensures ReadActive(Replay(v, ws)) == ReadActive(v)
    decreases |ws|
  {
    if ws != [] {
      assert IsSlotPut(ws[0]);
      SlotPutsKeepSafe(Perform(v, ws[0]), ws[1..]);
    }
  }

  lemma {:induction false} MissingPutsSlots(v: Volume, source: Source, names: seq<Name>)
    requires forall n :: n in names ==> n in source.files
    ensures forall w :: w in Missing(v, source, names) ==> IsSlotPut(w) && w.path !in v
    decreases |names|
  {
    if names != [] {
      MissingPutsSlots(v, source, names[1..]);
    }
  }

  lemma ImportPutsSlots(v: Volume, source: Source, predecessor: Option<Source>, first: bool)
    ensures forall w :: w in ImportPlan(v, source, predecessor, first).writes ==> IsSlotPut(w)
  {
    if Qualified(source) {
      QualifiedHasFiles(source);
      MissingPutsSlots(v, source, STAGED);
    }
    if predecessor.Some? && Qualified(predecessor.value) {
      QualifiedHasFiles(predecessor.value);
      MissingPutsSlots(Replay(v, StagePlan(v, source).writes), predecessor.value, STAGED);
    }
  }

  lemma BootstrapKeepsSafe(v: Volume, t: Transition)
    requires Safe(v) && ReadPending(v) == Holding(t)
    ensures
      var boot := BootstrapPlan(v, t.fromDispatcher, t.after);
      && Throughout(v, boot.writes, Safe)
      && ReadPending(Replay(v, boot.writes)) == Holding(t)
      && ReadActive(Replay(v, boot.writes)) == ReadActive(v)
      && (boot.result.Ok? ==> EntryIs(Replay(v, boot.writes), Some(t.after.dispatcher)))
  {
    var boot := BootstrapPlan(v, t.fromDispatcher, t.after);
    if boot.writes != [] {
      ThroughoutOne(v, boot.writes[0], Safe);
    }
  }

  lemma SelectKeepsSafe(v: Volume, t: Transition)
    requires Safe(v) && ReadPending(v) == Holding(t) && EntryIs(v, Some(t.after.dispatcher))
    ensures Throughout(v, [Put(Active, SelectionDoc(t.after))], Safe)
    ensures
      var v' := Replay(v, [Put(Active, SelectionDoc(t.after))]);
      && v' == v[Active := SelectionDoc(t.after)]
      && ReadPending(v') == Holding(t) && EntryIs(v', Some(t.after.dispatcher))
      && ReadActive(v') == Holding(t.after)
  {
    ThroughoutOne(v, Put(Active, SelectionDoc(t.after)), Safe);
  }

  lemma ReleaseKeepsSafe(v: Volume, t: Transition)
    requires Safe(v) && ReadPending(v) == Holding(t) && EntryIs(v, Some(t.after.dispatcher))
    requires ReadActive(v) == Holding(t.after)
    ensures Throughout(v, [Drop(Pending)], Safe)
    ensures ReadPending(Replay(v, [Drop(Pending)])) == Absent
    ensures ReadActive(Replay(v, [Drop(Pending)])) == Holding(t.after)
  {
    ThroughoutOne(v, Drop(Pending), Safe);
  }

  lemma FinishKeepsSafe(v: Volume, t: Transition, w: World)
    requires Safe(v) && ReadPending(v) == Holding(t)
    ensures
      var p := FinishPlan(v, t, w);
      && Throughout(v, p.writes, Safe)
      && (p.result.Ok? ==>
            && ReadPending(Replay(v, p.writes)) == Absent
            && ReadActive(Replay(v, p.writes)) == Holding(t.after))
  {
    hide BootstrapPlan, Startable, EntryIs;
    var p := FinishPlan(v, t, w);
    var boot := BootstrapPlan(v, t.fromDispatcher, t.after);
    BootstrapKeepsSafe(v, t);
    assert boot.writes + [] == boot.writes;
    if p.writes != boot.writes && p.writes != [] {
      var select := [Put(Active, SelectionDoc(t.after))];
      var v1 := Replay(v, boot.writes);
      if ReadActive(v).Absent? || w.registers {
        SelectKeepsSafe(v1, t);
        ThroughoutConcat(v, boot.writes, select, Safe);
        ReplayConcat(v, boot.writes, select);
      }
      if w.registers && p.result.Ok? {
        var v2 := Replay(v1, select);
        ReleaseKeepsSafe(v2, t);
        ThroughoutConcat(v, boot.writes + select, [Drop(Pending)], Safe);
        ReplayConcat(v, boot.writes + select, [Drop(Pending)]);
        assert p.writes == boot.writes + select + [Drop(Pending)];
      } else {
        assert p.writes == boot.writes + select;
      }
    }
  }

  lemma CommitKeepsSafe(v: Volume, t: Transition, w: World)
    requires Safe(v) && Recorded(v, t)
    ensures
      var p := CommitPlan(v, t, w);
      && Throughout(v, p.writes, Safe)
      && (p.result.Ok? ==>
            && ReadPending(Replay(v, p.writes)) == Absent
            && ReadActive(Replay(v, p.writes)) == Holding(p.result.value))
  {
    var record := Put(Pending, TransitionDoc(t));
    var v1 := Perform(v, record);
    assert ReadActive(v1) == ReadActive(v);
    ThroughoutOne(v, record, Safe);
    FinishKeepsSafe(v1, t, w);
    ThroughoutConcat(v, [record], FinishPlan(v1, t, w).writes, Safe);
    ReplayConcat(v, [record], FinishPlan(v1, t, w).writes);
  }

  lemma ChangeKeepsSafe(v: Volume, r: Request, before: Option<Selection>, after: Selection, w: World)
    requires Safe(v) && ReadPending(v).Absent? && Observed(ReadActive(v)) == before
    requires r.action.Install? ==> after.current == after.dispatcher == r.action.source.release
    requires r.action.Rollback? ==> before.Some?
    ensures
      var p := ChangePlan(v, r, before, after, w);
      && Throughout(v, p.writes, Safe)
      && (p.result.Ok? ==>
            && ReadPending(Replay(v, p.writes)) == Absent
            && ReadActive(Replay(v, p.writes)) == Holding(p.result.value))
  {
    if ChangePlan(v, r, before, after, w).writes != [] {
      CommitKeepsSafe(v, Transition(Requested(r), Dispatcher(before), before, after), w);
    }
  }

  lemma FreshKeepsSafe(v: Volume, r: Request, w: World)
    requires Safe(v) && ReadPending(v).Absent?
    ensures
      var p := FreshPlan(v, r, w);
      && Throughout(v, p.writes, Safe)
      && (p.result.Ok? ==>
            && ReadPending(Replay(v, p.writes)) == Absent
            && ReadActive(Replay(v, p.writes)) == Holding(p.result.value))
  {
    var before := Observed(ReadActive(v));
    if r.action.Install? {
      var stage := ImportPlan(v, r.action.source, r.action.predecessor, before == None);
      ImportPutsSlots(v, r.action.source, r.action.predecessor, before == None);
      SlotPutsKeepSafe(v, stage.writes);
      ThroughoutEnd(v, stage.writes, Safe);
      if stage.result.Ok? {
        var after := InstallTarget(r.action.source.release, before, stage.result.value);
        var v1 := Replay(v, stage.writes);
        ChangeKeepsSafe(v1, r, before, after, w);
        var change := ChangePlan(v1, r, before, after, w);
        ThroughoutConcat(v, stage.writes, change.writes, Safe);
        ReplayConcat(v, stage.writes, change.writes);
      }
    } else if before.Some? {
      var after := RollbackTarget(v, before.value, r.expected);
      if after.Ok? {
        ChangeKeepsSafe(v, r, before, after.value, w);
      }
    }
  }

  /** Every durable step of every request keeps the crash invariant, and a
      request that succeeds leaves its selection committed and nothing pending. */
  lemma ApplyKeepsSafe(v: Volume, r: Request, w: World)
    requires Safe(v)
    ensures
      var p := ApplyPlan(v, r, w);
      && Throughout(v, p.writes, Safe)
      && (p.result.Ok? ==>
            && ReadPending(Replay(v, p.writes)) == Absent
            && ReadActive(Replay(v, p.writes)) == Holding(p.result.value))
  {
    var pending := ReadPending(v);
    if pending.Absent? {
      FreshKeepsSafe(v, r, w);
    } else {
      var t := pending.value;
      if Restores(r, t) {
        if RestorePlan(v, r, t, w).writes != [] {
          CommitKeepsSafe(v, Transition(None, Some(t.after.dispatcher), Observed(ReadActive(v)), t.before.value), w);
        }
      } else {
        FinishKeepsSafe(v, t, w);
        var done := FinishPlan(v, t, w);
        if done.result.Ok? && Requested(r) != t.requested {
          var v1 := Replay(v, done.writes);
          ThroughoutEnd(v, done.writes, Safe);
          FreshKeepsSafe(v1, r, w);
          ThroughoutConcat(v, done.writes, FreshPlan(v1, r, w).writes, Safe);
          ReplayConcat(v, done.writes, FreshPlan(v1, r, w).writes);
        }
      }
    }
  }
}
