/** Recovery: a request repeated after any number of power losses ends exactly
    where the undisturbed request would have ended. */
module TransactionRecovery {
  import opened Outcome
  import opened Package
  import opened Transaction
  import opened TransactionSafety

  // ----- Volumes that agree on the staged releases -----

  ghost predicate SameSlots(v: Volume, u: Volume) {
    forall id, n :: (Slot(id, n) in v <==> Slot(id, n) in u) && (Slot(id, n) in v ==> v[Slot(id, n)] == u[Slot(id, n)])
  }

  ghost predicate SlotsKept(v: Volume, u: Volume) {
    forall id, n :: Slot(id, n) in v ==> Slot(id, n) in u && v[Slot(id, n)] == u[Slot(id, n)]
  }

  lemma SameDirectory(v: Volume, u: Volume, id: Id)
    requires SameSlots(v, u)
    ensures Directory(v, id) == Directory(u, id)
  {
  }

  lemma VerifiedKept(v: Volume, u: Volume, id: Id)
    requires SlotsKept(v, u) && Verified(v, id)
    ensures Verified(u, id)
  {
    forall n | n in Directory(v, id)
      ensures n in Directory(u, id) && Directory(u, id)[n] == Directory(v, id)[n]
    {
      assert Slot(id, n) in v;
    }
  }

  // ----- Staging -----

  /** The volume with every missing file of `names` copied. */
  function Filled(v: Volume, source: Source, names: seq<Name>): Volume
    requires forall n :: n in names ==> n in source.files
  {
    v + map n | n in names && Slot(source.release, n) !in v :: Slot(source.release, n) := source.files[n]
  }

  ghost predicate Within(u: Volume, full: Volume) {
    forall p :: p in u ==> p in full && full[p] == u[p]
  }

  ghost predicate PutsInto(ws: seq<Write>, full: Volume) {
    forall w :: w in ws ==> w.Put? && w.path in full && full[w.path] == w.content
  }

  lemma {:induction false} PutsStayWithin(u: Volume, ws: seq<Write>, full: Volume)
    requires Within(u, full) && PutsInto(ws, full)
    ensures Within(Replay(u, ws), full) && Within(u, Replay(u, ws))
    ensures forall w :: w in ws ==> w.path in Replay(u, ws)
    decreases |ws|
  {
    if ws != [] {
      assert ws[0] in ws;
      PutsStayWithin(Perform(u, ws[0]), ws[1..], full);
      assert ws[0].path in Perform(u, ws[0]);
    }
  }

  lemma FilledMore(v: Volume, source: Source, names: seq<Name>)
    requires names != [] && forall n :: n in names ==> n in source.files
    ensures Within(Filled(v, source, names[1..]), Filled(v, source, names))
    ensures
      var to := Slot(source.release, names[0]);
      to !in v ==> to in Filled(v, source, names) && Filled(v, source, names)[to] == source.files[names[0]]
  {
  }

  lemma {:induction false} MissingLists(v: Volume, source: Source, names: seq<Name>)
    requires forall n :: n in names ==> n in source.files
    ensures PutsInto(Missing(v, source, names), Filled(v, source, names))
    ensures forall n :: n in names && Slot(source.release, n) !in v ==>
              Put(Slot(source.release, n), source.files[n]) in Missing(v, source, names)
    decreases |names|
  {
    hide Filled;
    if names != [] {
      MissingLists(v, source, names[1..]);
      FilledMore(v, source, names);
    }
  }

  lemma MissingFills(v: Volume, source: Source, names: seq<Name>, k: nat)
    requires forall n :: n in names ==> n in source.files
    requires k <= |Missing(v, source, names)|
    ensures Within(v, Replay(v, Missing(v, source, names)[..k]))
    ensures Within(Replay(v, Missing(v, source, names)[..k]), Filled(v, source, names))
    ensures Replay(v, Missing(v, source, names)) == Filled(v, source, names)
  {
    MissingLists(v, source, names);
    var ws := Missing(v, source, names);
    var full := Filled(v, source, names);
    PutsStayWithin(v, ws[..k], full);
    PutsStayWithin(v, ws, full);
    var end := Replay(v, ws);
    forall p | p in full
      ensures p in end
    {
      if p !in v {
        assert Put(Slot(source.release, p.name), source.files[p.name]) in ws;
      }
    }
    assert end == full;
  }

  lemma StageFills(v: Volume, source: Source, k: nat)
    requires Qualified(source) && !Misbuilt(v, source) && k <= |StagePlan(v, source).writes|
    ensures forall n :: n in STAGED ==> n in source.files
    ensures Within(v, Replay(v, StagePlan(v, source).writes[..k]))
    ensures Within(Replay(v, StagePlan(v, source).writes[..k]), Filled(v, source, STAGED))
    ensures Replay(v, StagePlan(v, source).writes) == Filled(v, source, STAGED)
  {
    QualifiedHasFiles(source);
    MissingFills(v, source, STAGED, k);
  }

  lemma FilledAgain(v: Volume, u: Volume, source: Source, names: seq<Name>)
    requires forall n :: n in names ==> n in source.files
    requires Within(v, u) && Within(u, Filled(v, source, names))
    ensures Filled(u, source, names) == Filled(v, source, names)
  {
    var a, b := Filled(u, source, names), Filled(v, source, names);
    forall p | p in a
      ensures p in b && a[p] == b[p]
    {
    }
    forall p | p in b
      ensures p in a
    {
    }
  }

  /** Staging resumed from a volume an earlier staging left half filled. */
  lemma StageResumes(v: Volume, u: Volume, source: Source)
    requires Qualified(source) && !Misbuilt(v, source)
    requires forall n :: n in STAGED ==> n in source.files
    requires Within(v, u) && Within(u, Filled(v, source, STAGED))
    ensures Replay(u, StagePlan(u, source).writes) == Replay(v, StagePlan(v, source).writes)
    ensures StagePlan(u, source).result == StagePlan(v, source).result
  {
    StageFills(v, source, 0);
    StageFills(u, source, 0);
    FilledAgain(v, u, source, STAGED);
  }

  /** A release already verified in place needs no copying. */
  lemma StageVerified(v: Volume, source: Source)
    requires Qualified(source) && Verified(v, source.release)
    ensures StagePlan(v, source) == Plan([], Ok(source.release))
  {
    QualifiedHasFiles(source);
    forall n | n in STAGED
      ensures Slot(source.release, n) in v
    {
      assert n in Directory(v, source.release);
    }
    NothingMissing(v, source, STAGED);
  }

  lemma {:induction false} NothingMissing(v: Volume, source: Source, names: seq<Name>)
    requires forall n :: n in names ==> n in source.files && Slot(source.release, n) in v
    ensures Missing(v, source, names) == []
    decreases |names|
  {
    if names != [] {
      NothingMissing(v, source, names[1..]);
    }
  }

  lemma ImportReplays(v: Volume, source: Source, predecessor: Option<Source>, first: bool)
    requires ImportPlan(v, source, predecessor, first).result.Ok?
    ensures
      var p := ImportPlan(v, source, predecessor, first);
      var v1 := Replay(v, StagePlan(v, source).writes);
      && StagePlan(v, source).result.Ok?
      && (!first || predecessor.None? ==> p.writes == StagePlan(v, source).writes && p.result == Ok(None))
      && (first && predecessor.Some? ==>
            && StagePlan(v1, predecessor.value).result.Ok?
            && p.writes == StagePlan(v, source).writes + StagePlan(v1, predecessor.value).writes
            && p.result == Ok(Some(predecessor.value.release))
            && Replay(v, p.writes) == Replay(v1, StagePlan(v1, predecessor.value).writes))
  {
    if first && predecessor.Some? {
      var v1 := Replay(v, StagePlan(v, source).writes);
      ReplayConcat(v, StagePlan(v, source).writes, StagePlan(v1, predecessor.value).writes);
    }
  }

  /** Once the target stands, only the predecessor is left to copy. */
  lemma ImportAfterTarget(v1: Volume, u: Volume, source: Source, predecessor: Source)
    requires Qualified(source) && Qualified(predecessor)
    requires Verified(v1, source.release)
    requires StagePlan(v1, predecessor).result.Ok?
    requires forall n :: n in STAGED ==> n in predecessor.files
    requires Within(v1, u) && Within(u, Filled(v1, predecessor, STAGED))
    ensures
      var q := ImportPlan(u, source, Some(predecessor), true);
      && q.result == Ok(Some(predecessor.release))
      && Replay(u, q.writes) == Replay(v1, StagePlan(v1, predecessor).writes)
  {
    StageResumes(v1, u, predecessor);
    VerifiedKept(v1, u, source.release);
    StageVerified(u, source);
    assert [] + StagePlan(u, predecessor).writes == StagePlan(u, predecessor).writes;
  }

  lemma ImportResumes(v: Volume, source: Source, predecessor: Option<Source>, first: bool, k: nat)
    requires ImportPlan(v, source, predecessor, first).result.Ok?
    requires k <= |ImportPlan(v, source, predecessor, first).writes|
    ensures
      var p := ImportPlan(v, source, predecessor, first);
      var u := Replay(v, p.writes[..k]);
      var q := ImportPlan(u, source, predecessor, first);
      q.result == p.result && Replay(u, q.writes) == Replay(v, p.writes)
  {
    hide Verified, Replay, Missing, Qualified;
    var target := StagePlan(v, source).writes;
    var p := ImportPlan(v, source, predecessor, first).writes;
    var u := Replay(v, p[..k]);
    var v1 := Replay(v, target);
    ImportReplays(v, source, predecessor, first);
    if k <= |target| {
      assert p[..k] == target[..k];
      StageFills(v, source, k);
      StageResumes(v, u, source);
      ImportReplays(u, source, predecessor, first);
    } else {
      var rest := StagePlan(v1, predecessor.value).writes[..k - |target|];
      assert p[..k] == target + rest;
      ReplayConcat(v, target, rest);
      StageFills(v1, predecessor.value, k - |target|);
      ImportAfterTarget(v1, u, source, predecessor.value);
    }
  }

  // ----- Finishing -----

  /** The volume a finished transaction to `s` leaves. */
  function Settled(v: Volume, s: Selection): Volume
    requires Admissible(s.dispatcher)
  {
    v[Entry := s.dispatcher.of.artifact.of][Active := SelectionDoc(s)] - {Pending}
  }

  lemma OkFinishIsReady(v: Volume, t: Transition, w: World)
    requires FinishPlan(v, t, w).result.Ok?
    ensures !ReadActive(v).Corrupt? && Startable(v, t) && w.registers && t.after.current in w.healthy
    ensures BootstrapPlan(v, t.fromDispatcher, t.after).result.Ok?
    ensures Admissible(t.after.dispatcher)
    ensures FinishPlan(v, t, w).writes
         == BootstrapPlan(v, t.fromDispatcher, t.after).writes + [Put(Active, SelectionDoc(t.after))] + [Drop(Pending)]
  {
    var boot := BootstrapPlan(v, t.fromDispatcher, t.after).writes;
    var select := [Put(Active, SelectionDoc(t.after))];
    assert boot + select + [] + [Drop(Pending)] == boot + select + [Drop(Pending)];
    assert boot + [] + select + [Drop(Pending)] == boot + select + [Drop(Pending)];
  }

  lemma BootstrapSettles(v: Volume, t: Transition)
    requires BootstrapPlan(v, t.fromDispatcher, t.after).result.Ok?
    ensures Admissible(t.after.dispatcher)
    ensures Replay(v, BootstrapPlan(v, t.fromDispatcher, t.after).writes)
         == v[Entry := t.after.dispatcher.of.artifact.of]
  {
    var boot := BootstrapPlan(v, t.fromDispatcher, t.after).writes;
    if boot != [] {
      assert boot[1..] == [];
    } else {
      assert v[Entry := t.after.dispatcher.of.artifact.of] == v;
    }
  }

  lemma FinishSettles(v: Volume, t: Transition, w: World)
    requires FinishPlan(v, t, w).result.Ok?
    ensures Admissible(t.after.dispatcher)
    ensures Replay(v, FinishPlan(v, t, w).writes) == Settled(v, t.after)
  {
    OkFinishIsReady(v, t, w);
    BootstrapSettles(v, t);
    var boot := BootstrapPlan(v, t.fromDispatcher, t.after).writes;
    var select := [Put(Active, SelectionDoc(t.after))];
    ReplayConcat(v, boot, select);
    ReplayConcat(v, boot + select, [Drop(Pending)]);
    var v1 := Replay(v, boot);
    assert select[1..] == [] && [Drop(Pending)][1..] == [];
    assert Replay(v1, select) == v1[Active := SelectionDoc(t.after)];
    var v2 := Replay(v1, select);
    assert Replay(v2, [Drop(Pending)]) == v2 - {Pending};
  }

  /** What a half finished transaction leaves, whatever the power loss. */
  lemma FinishPrefix(v: Volume, t: Transition, w: World, k: nat)
    requires FinishPlan(v, t, w).result.Ok? && k < |FinishPlan(v, t, w).writes|
    ensures Admissible(t.after.dispatcher)
    ensures
      var u := Replay(v, FinishPlan(v, t, w).writes[..k]);
      || u == v
      || u == v[Entry := t.after.dispatcher.of.artifact.of]
      || u == v[Entry := t.after.dispatcher.of.artifact.of][Active := SelectionDoc(t.after)]
  {
    OkFinishIsReady(v, t, w);
    BootstrapSettles(v, t);
    var ws := FinishPlan(v, t, w).writes;
    var boot := BootstrapPlan(v, t.fromDispatcher, t.after).writes;
    if k < |boot| {
      assert ws[..k] == [];
    } else if k == |boot| {
      assert ws[..k] == boot;
    } else {
      var select := [Put(Active, SelectionDoc(t.after))];
      assert ws[..k] == boot + select;
      ReplayConcat(v, boot, select);
      assert select[1..] == [];
      assert Replay(Replay(v, boot), select) == Replay(v, boot)[Active := SelectionDoc(t.after)];
    }
  }

  lemma FinishResumes(v: Volume, t: Transition, w: World, k: nat)
    requires FinishPlan(v, t, w).result.Ok? && k < |FinishPlan(v, t, w).writes|
    ensures
      var u := Replay(v, FinishPlan(v, t, w).writes[..k]);
      && ReadPending(u) == ReadPending(v)
      && FinishPlan(u, t, w).result.Ok?
      && Replay(u, FinishPlan(u, t, w).writes) == Replay(v, FinishPlan(v, t, w).writes)
  {
    hide Replay, Directory, Opens, Pinned, Complete;
    OkFinishIsReady(v, t, w);
    FinishPrefix(v, t, w, k);
    var u := Replay(v, FinishPlan(v, t, w).writes[..k]);
    assert SameSlots(v, u);
    SameDirectory(v, u, t.after.current);
    SameDirectory(v, u, t.after.dispatcher);
    if t.after.previous.Some? {
      SameDirectory(v, u, t.after.previous.value);
    }
    if t.fromDispatcher.Some? {
      SameDirectory(v, u, t.fromDispatcher.value);
    }
    FinishSettles(v, t, w);
    FinishSettles(u, t, w);
    assert Settled(u, t.after) == Settled(v, t.after);
  }

  // ----- Requests -----

  /** `u` is a crash point from which the same request still reaches `end`. */
  ghost predicate Reaches(u: Volume, r: Request, w: World, s: Selection, end: Volume) {
    var q := ApplyPlan(u, r, w);
    q.result == Ok(s) && Replay(u, q.writes) == end
  }

  /** A request that meets its own recorded transition completes it. */
  lemma OwnTransitionResumes(v: Volume, t: Transition, r: Request, w: World, k: nat)
    requires ReadPending(v) == Holding(t)
    requires Requested(r) == t.requested && Meets(t.after, r.expected)
    requires FinishPlan(v, t, w).result.Ok? && k < |FinishPlan(v, t, w).writes|
    ensures
      var ws := FinishPlan(v, t, w).writes;
      Reaches(Replay(v, ws[..k]), r, w, t.after, Replay(v, ws))
  {
    FinishResumes(v, t, w, k);
  }

  lemma CommitResumes(v: Volume, t: Transition, r: Request, w: World, k: nat)
    requires CommitPlan(v, t, w).result.Ok?
    requires Requested(r) == t.requested && Meets(t.after, r.expected)
    requires 0 < k < |CommitPlan(v, t, w).writes|
    ensures
      var p := CommitPlan(v, t, w);
      Reaches(Replay(v, p.writes[..k]), r, w, t.after, Replay(v, p.writes))
  {
    var record := Put(Pending, TransitionDoc(t));
    var v1 := Perform(v, record);
    var ws := FinishPlan(v1, t, w).writes;
    var p := CommitPlan(v, t, w);
    assert p.writes[..k][1..] == ws[..k - 1];
    assert p.writes[1..] == ws;
    OwnTransitionResumes(v1, t, r, w, k - 1);
  }

  lemma ImportKeepsReceipts(v: Volume, source: Source, predecessor: Option<Source>, first: bool, k: nat)
    requires k <= |ImportPlan(v, source, predecessor, first).writes|
    ensures
      var u := Replay(v, ImportPlan(v, source, predecessor, first).writes[..k]);
      && ReadActive(u) == ReadActive(v)
      && ReadPending(u) == ReadPending(v)
  {
    ImportPutsSlots(v, source, predecessor, first);
    SlotPutsKeepReceipts(v, ImportPlan(v, source, predecessor, first).writes[..k]);
  }

  lemma {:induction false} SlotPutsKeepReceipts(v: Volume, ws: seq<Write>)
    requires forall w :: w in ws ==> IsSlotPut(w)
    ensures ReadActive(Replay(v, ws)) == ReadActive(v) && ReadPending(Replay(v, ws)) == ReadPending(v)
    decreases |ws|
  {
    if ws != [] {
      assert IsSlotPut(ws[0]);
      SlotPutsKeepReceipts(Perform(v, ws[0]), ws[1..]);
    }
  }

  lemma ChangeResumes(v: Volume, r: Request, before: Option<Selection>, after: Selection, w: World, k: nat)
    requires ChangePlan(v, r, before, after, w).result.Ok?
    requires 0 < k < |ChangePlan(v, r, before, after, w).writes|
    ensures
      var p := ChangePlan(v, r, before, after, w);
      && p.result == Ok(after)
      && Reaches(Replay(v, p.writes[..k]), r, w, after, Replay(v, p.writes))
  {
    CommitResumes(v, Transition(Requested(r), Dispatcher(before), before, after), r, w, k);
  }

  lemma FreshInstallIs(v: Volume, r: Request, w: World)
    requires r.action.Install? && FreshPlan(v, r, w).result.Ok?
    ensures !ReadActive(v).Corrupt?
    ensures
      var before := Observed(ReadActive(v));
      var stage := ImportPlan(v, r.action.source, r.action.predecessor, before == None);
      && stage.result.Ok?
      && var v1 := Replay(v, stage.writes);
        var after := InstallTarget(r.action.source.release, before, stage.result.value);
        var change := ChangePlan(v1, r, before, after, w);
        && change.result == Ok(after)
        && FreshPlan(v, r, w) == Plan(stage.writes + change.writes, Ok(after))
        && Replay(v, stage.writes + change.writes) == Replay(v1, change.writes)
  {
    var before := Observed(ReadActive(v));
    var stage := ImportPlan(v, r.action.source, r.action.predecessor, before == None);
    var v1 := Replay(v, stage.writes);
    var after := InstallTarget(r.action.source.release, before, stage.result.value);
    ReplayConcat(v, stage.writes, ChangePlan(v1, r, before, after, w).writes);
  }

  lemma FreshInstallResumes(v: Volume, r: Request, w: World, k: nat)
    requires r.action.Install? && ReadPending(v).Absent?
    requires FreshPlan(v, r, w).result.Ok? && k < |FreshPlan(v, r, w).writes|
    ensures
      var p := FreshPlan(v, r, w);
      Reaches(Replay(v, p.writes[..k]), r, w, p.result.value, Replay(v, p.writes))
  {
    hide Verified, Replay, ImportPlan, ChangePlan, FinishPlan, Valid;
    FreshInstallIs(v, r, w);
    var p := FreshPlan(v, r, w).writes;
    var first := ReadActive(v).Absent?;
    var before := Observed(ReadActive(v));
    var source, predecessor := r.action.source, r.action.predecessor;
    var stage := ImportPlan(v, source, predecessor, first);
    var after := InstallTarget(source.release, before, stage.result.value);
    var v1 := Replay(v, stage.writes);
    var change := ChangePlan(v1, r, before, after, w).writes;
    if k <= |stage.writes| {
      assert p[..k] == stage.writes[..k];
      var u := Replay(v, stage.writes[..k]);
      ImportResumes(v, source, predecessor, first, k);
      ImportKeepsReceipts(v, source, predecessor, first, k);
      assert FreshPlan(u, r, w).result.Ok?;
      FreshInstallIs(u, r, w);
    } else {
      var j := k - |stage.writes|;
      assert p[..k] == stage.writes + change[..j];
      ReplayConcat(v, stage.writes, change[..j]);
      ChangeResumes(v1, r, before, after, w, j);
    }
  }

  lemma FreshResumes(v: Volume, r: Request, w: World, k: nat)
    requires ReadPending(v).Absent?
    requires FreshPlan(v, r, w).result.Ok? && k < |FreshPlan(v, r, w).writes|
    ensures
      var p := FreshPlan(v, r, w);
      Reaches(Replay(v, p.writes[..k]), r, w, p.result.value, Replay(v, p.writes))
  {
    var p := FreshPlan(v, r, w);
    if r.action.Install? {
      FreshInstallResumes(v, r, w, k);
    } else if k == 0 {
      assert p.writes[..k] == [];
    } else {
      var before := Observed(ReadActive(v));
      ChangeResumes(v, r, before, RollbackTarget(v, before.value, r.expected).value, w, k);
    }
  }

  /** Before its last durable step, an interrupted request can simply be repeated. */
  lemma ApplyResumes(v: Volume, r: Request, w: World, k: nat)
    requires Safe(v)
    requires ApplyPlan(v, r, w).result.Ok? && k < |ApplyPlan(v, r, w).writes|
    ensures
      var p := ApplyPlan(v, r, w);
      Reaches(Replay(v, p.writes[..k]), r, w, p.result.value, Replay(v, p.writes))
  {
    hide FinishPlan, FreshPlan, Safe, Valid;
    var p := ApplyPlan(v, r, w);
    if ReadPending(v).Absent? {
      FreshResumes(v, r, w, k);
    } else {
      var t := ReadPending(v).value;
      if Restores(r, t) {
        if k == 0 {
          assert p.writes[..k] == [];
        } else {
          var restored := Transition(None, Some(t.after.dispatcher), Observed(ReadActive(v)), t.before.value);
          CommitResumes(v, restored, r, w, k);
        }
      } else {
        var done := FinishPlan(v, t, w);
        if Requested(r) == t.requested {
          OwnTransitionResumes(v, t, r, w, k);
        } else {
          var v1 := Replay(v, done.writes);
          var next := FreshPlan(v1, r, w);
          var n := |done.writes|;
          ReplayConcat(v, done.writes, next.writes);
          FinishKeepsSafe(v, t, w);
          if k < n {
            assert p.writes[..k] == done.writes[..k];
            FinishResumes(v, t, w, k);
            var u := Replay(v, done.writes[..k]);
            ReplayConcat(u, FinishPlan(u, t, w).writes, next.writes);
          } else {
            assert p.writes[..k] == done.writes + next.writes[..k - n];
            ReplayConcat(v, done.writes, next.writes[..k - n]);
            FreshResumes(v1, r, w, k - n);
          }
        }
      }
    }
  }
}
