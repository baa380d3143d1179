/** Requests that nobody disturbs, write by write: a run in which one request follows
    another performs exactly their plans. */
module TransactionLanding {
  import opened Outcome
  import opened Package
  import opened Transaction
  import opened TransactionSafety
  import opened TransactionRecovery
  import opened TransactionMoments

  // ----- Every planned write lands -----

  ghost predicate AllLand(v: Volume, ws: seq<Write>)
    decreases |ws|
  {
    ws != [] ==> Lands(v, ws[0]) && AllLand(Perform(v, ws[0]), ws[1..])
  }

  lemma {:induction false} AllLandConcat(v: Volume, a: seq<Write>, b: seq<Write>)
    requires AllLand(v, a) && AllLand(Replay(v, a), b)
    ensures AllLand(v, a + b)
    decreases |a|
  {
    hide Lands;
    if a == [] {
      assert a + b == b;
    } else {
      AllLandConcat(Perform(v, a[0]), a[1..], b);
      assert (a + b)[1..] == a[1..] + b;
    }
  }

  /** Staging writes nothing that staging links to. */
  lemma {:induction false} SlotPutsLand(v: Volume, u: Volume, ws: seq<Write>)
    requires forall w :: w in ws ==> IsSlotPut(w) && Lands(v, w)
    requires forall a :: (Build(a) in v <==> Build(a) in u) && (Build(a) in v ==> v[Build(a)] == u[Build(a)])
    ensures AllLand(u, ws)
    decreases |ws|
  {
    if ws != [] {
      assert ws[0] in ws && IsSlotPut(ws[0]) && Lands(v, ws[0]);
      SlotPutsLand(v, Perform(u, ws[0]), ws[1..]);
    }
  }

  lemma StageLands(v: Volume, source: Source)
    ensures AllLand(v, StagePlan(v, source).writes)
  {
    if Qualified(source) && !Misbuilt(v, source) {
      QualifiedHasFiles(source);
      var ws := Missing(v, source, STAGED);
      MissingPutsSlots(v, source, STAGED);
      MissingLists(v, source, STAGED);
      forall w | w in ws
        ensures IsSlotPut(w) && Lands(v, w)
      {
        MissingPutLands(v, source, w);
      }
      SlotPutsLand(v, v, ws);
    }
  }

  lemma MissingPutLands(v: Volume, source: Source, w: Write)
    requires Qualified(source) && !Misbuilt(v, source)
    requires forall n :: n in STAGED ==> n in source.files
    requires IsSlotPut(w) && w.path !in v
    requires w.path in Filled(v, source, STAGED) && Filled(v, source, STAGED)[w.path] == w.content
    ensures Lands(v, w)
  {
  }

  lemma ImportLands(v: Volume, source: Source, predecessor: Option<Source>, first: bool)
    ensures AllLand(v, ImportPlan(v, source, predecessor, first).writes)
  {
    hide AllLand, StagePlan;
    StageLands(v, source);
    if predecessor.Some? {
      var v1 := Replay(v, StagePlan(v, source).writes);
      StageLands(v1, predecessor.value);
      AllLandConcat(v, StagePlan(v, source).writes, StagePlan(v1, predecessor.value).writes);
    }
  }

  lemma {:induction false} FreeWritesLand(v: Volume, ws: seq<Write>)
    requires forall w :: w in ws ==> w.Drop? || (w.path != Entry && !w.path.Slot?)
    ensures AllLand(v, ws)
    decreases |ws|
  {
    if ws != [] {
      assert ws[0] in ws;
      FreeWritesLand(Perform(v, ws[0]), ws[1..]);
    }
  }

  lemma BootstrapLands(v: Volume, t: Transition)
    requires ReadPending(v) == Holding(t)
    ensures AllLand(v, BootstrapPlan(v, t.fromDispatcher, t.after).writes)
  {
    var ws := BootstrapPlan(v, t.fromDispatcher, t.after).writes;
    if ws != [] {
      assert ws[1..] == [];
    }
  }

  lemma FinishLands(v: Volume, t: Transition, w: World)
    requires ReadPending(v) == Holding(t)
    ensures AllLand(v, FinishPlan(v, t, w).writes)
  {
    hide BootstrapPlan, Startable, AllLand;
    var boot := BootstrapPlan(v, t.fromDispatcher, t.after).writes;
    var ws := FinishPlan(v, t, w).writes;
    if ws == [] {
      FreeWritesLand(v, ws);
    } else {
      var rest := ws[|boot|..];
      assert ws == boot + rest;
      BootstrapLands(v, t);
      forall x | x in rest
        ensures x.Drop? || (x.path != Entry && !x.path.Slot?)
      {
      }
      FreeWritesLand(Replay(v, boot), rest);
      AllLandConcat(v, boot, rest);
    }
  }

  lemma CommitLands(v: Volume, t: Transition, w: World)
    ensures AllLand(v, CommitPlan(v, t, w).writes)
  {
    hide FinishPlan;
    var u := Perform(v, Put(Pending, TransitionDoc(t)));
    FinishLands(u, t, w);
    assert CommitPlan(v, t, w).writes[1..] == FinishPlan(u, t, w).writes;
  }

  lemma NothingLands(v: Volume)
    ensures AllLand(v, [])
  {
  }

  lemma ChangeLands(v: Volume, r: Request, before: Option<Selection>, after: Selection, w: World)
    ensures AllLand(v, ChangePlan(v, r, before, after, w).writes)
  {
    hide CommitPlan, AllLand;
    NothingLands(v);
    CommitLands(v, Transition(Requested(r), Dispatcher(before), before, after), w);
  }

  lemma FreshLands(v: Volume, r: Request, w: World)
    ensures AllLand(v, FreshPlan(v, r, w).writes)
  {
    hide ChangePlan, ImportPlan, AllLand;
    NothingLands(v);
    if !ReadActive(v).Corrupt? {
      var before := Observed(ReadActive(v));
      if r.action.Install? {
        var stage := ImportPlan(v, r.action.source, r.action.predecessor, before == None);
        ImportLands(v, r.action.source, r.action.predecessor, before == None);
        if stage.result.Ok? {
          var v1 := Replay(v, stage.writes);
          var after := InstallTarget(r.action.source.release, before, stage.result.value);
          ChangeLands(v1, r, before, after, w);
          AllLandConcat(v, stage.writes, ChangePlan(v1, r, before, after, w).writes);
        }
      } else if before.Some? && RollbackTarget(v, before.value, r.expected).Ok? {
        ChangeLands(v, r, before, RollbackTarget(v, before.value, r.expected).value, w);
      }
    }
  }

  /** Whatever the volume, an installer that nobody disturbs finds everything it links or
      copies as it planned it. */
  lemma ApplyLands(v: Volume, r: Request, w: World)
    ensures AllLand(v, ApplyPlan(v, r, w).writes)
  {
    hide FreshPlan, FinishPlan, CommitPlan, AllLand;
    NothingLands(v);
    match ReadPending(v)
    case Corrupt =>
    case Absent =>
      FreshLands(v, r, w);
    case Holding(t) =>
      if Restores(r, t) {
        if !ReadActive(v).Corrupt? {
          CommitLands(v, Transition(None, Some(t.after.dispatcher), Observed(ReadActive(v)), t.before.value), w);
        }
      } else {
        FinishLands(v, t, w);
        var done := FinishPlan(v, t, w);
        var v1 := Replay(v, done.writes);
        FreshLands(v1, r, w);
        AllLandConcat(v, done.writes, FreshPlan(v1, r, w).writes);
      }
  }

  // ----- Requests in runs -----

  function Proceeds(n: nat): seq<Event> {
    if n == 0 then [] else [Proceed(true)] + Proceeds(n - 1)
  }

  /** The installer takes a request and performs `n` of its writes. */
  function Serve(r: Request, w: World, n: nat): seq<Event> {
    [Begin(r, w)] + Proceeds(n)
  }

  lemma {:induction false} RunConcat(s: State, a: seq<Event>, b: seq<Event>)
    ensures Run(s, a + b) == Run(Run(s, a), b)
    decreases |a|
  {
    hide Step;
    if a == [] {
      assert a + b == b;
    } else {
      assert (a + b)[1..] == a[1..] + b;
      RunConcat(Step(s, a[0]), a[1..], b);
    }
  }

  lemma RunOne(s: State, e: Event)
    ensures Run(s, [e]) == Step(s, e)
  {
    hide Step;
    assert [e][1..] == [];
  }

  lemma {:induction false} ProceedsPerform(s: State, n: nat)
    requires AllLand(s.disk, s.todo) && n <= |s.todo|
    ensures
      var end := Run(s, Proceeds(n));
      end.disk == Replay(s.disk, s.todo[..n]) && end.todo == s.todo[n..] && end.launches == s.launches
    decreases n
  {
    hide Lands, Origin;
    if n == 0 {
      assert s.todo[..0] == [];
    } else {
      var t := Step(s, Proceed(true));
      assert Proceeds(n)[1..] == Proceeds(n - 1);
      ProceedsPerform(t, n - 1);
      assert s.todo[..n][1..] == s.todo[1..][..n - 1];
    }
  }

  /** A run of one undisturbed request performs its plan, as far as it gets. */
  lemma ServePerforms(s: State, r: Request, w: World, n: nat)
    requires s.todo == [] && n <= |ApplyPlan(s.disk, r, w).writes|
    ensures
      var ws := ApplyPlan(s.disk, r, w).writes;
      var end := Run(s, Serve(r, w, n));
      end.disk == Replay(s.disk, ws[..n]) && end.todo == ws[n..] && end.launches == s.launches
  {
    hide ApplyPlan, AllLand;
    ApplyLands(s.disk, r, w);
    assert Serve(r, w, n)[1..] == Proceeds(n);
    ProceedsPerform(Step(s, Begin(r, w)), n);
  }
}
