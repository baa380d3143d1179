/** What launches run, at every moment of every run. */
module TransactionLaunches {
  import opened Package
  import opened Transaction
  import opened TransactionReceipt
  import opened TransactionRecovery
  import opened TransactionConvergence
  import opened TransactionRuns
  import opened TransactionLaunch
  import opened TransactionMoments

  // ----- Every receipt comes from a launch -----

  /** One of the launches proved an entry for `release` and had stamped `file`. */
  ghost predicate Left(launches: seq<Launch>, release: Id, file: Content) {
    exists j :: 0 <= j < |launches| && LeftBy(launches[j], release, file)
  }

  predicate LeftBy(l: Launch, release: Id, file: Content) {
    Proves(l) && l.selection.current == release && l.stamped == file
  }

  /** What the launch proved is true, and what it matched was left by a launch. */
  ghost predicate Founded(launches: seq<Launch>, l: Launch) {
    Backed(l) && (l.InPlace? && l.proof.None? ==> Left(launches, l.selection.current, l.stamped))
  }

  ghost predicate Traced(s: State) {
    && (Receipt in s.disk && s.disk[Receipt].StampDoc? ==>
          Left(s.launches, s.disk[Receipt].release, s.disk[Receipt].file))
    && (forall i :: 0 <= i < |s.launches| ==> Founded(s.launches, s.launches[i]))
  }

  /** A launch that has proved an entry stays as it is, whatever others do. */
  lemma LeftStays(launches: seq<Launch>, i: nat, l: Launch, release: Id, file: Content)
    requires i < |launches| && Left(launches, release, file) && (Over(launches[i]) ==> l == launches[i])
    ensures Left(launches[i := l], release, file)
  {
    var j: nat :| j < |launches| && LeftBy(launches[j], release, file);
    assert LeftBy(launches[i := l][j], release, file);
  }

  lemma LeftGrows(launches: seq<Launch>, l: Launch, release: Id, file: Content)
    requires Left(launches, release, file)
    ensures Left(launches + [l], release, file)
  {
    var j: nat :| j < |launches| && LeftBy(launches[j], release, file);
    assert LeftBy((launches + [l])[j], release, file);
  }

  /** Every step of a launch is founded, and so is the receipt it may leave. */
  lemma AdvanceIsTraced(v: Volume, launches: seq<Launch>, i: nat, saving: Saving)
    requires i < |launches| && Founded(launches, launches[i])
    requires Receipt in v && v[Receipt].StampDoc? ==> Left(launches, v[Receipt].release, v[Receipt].file)
    ensures
      var (l, writes) := Advance(v, launches[i], saving);
      var u := Replay(v, writes);
      && Founded(launches[i := l], l)
      && (Receipt in u && u[Receipt].StampDoc? ==> Left(launches[i := l], u[Receipt].release, u[Receipt].file))
      && (Over(launches[i]) ==> l == launches[i])
  {
    hide Left, ImageOf, Opens, Pinned, Directory;
    var (l, writes) := Advance(v, launches[i], saving);
    AdvanceIsBacked(v, launches[i], saving);
    if Receipt in v && v[Receipt].StampDoc? {
      LeftStays(launches, i, l, v[Receipt].release, v[Receipt].file);
    }
    if launches[i].InPlace? && launches[i].proof.None? {
      LeftStays(launches, i, l, l.selection.current, l.stamped);
    }
    if writes != [] {
      assert writes[1..] == [];
      assert Replay(v, writes) == Perform(v, writes[0]);
      if l.InPlace? {
        LeftHere(launches[i := l], i);
      }
    }
  }

  lemma LeftHere(launches: seq<Launch>, i: nat)
    requires i < |launches| && Proves(launches[i])
    ensures Left(launches, launches[i].selection.current, launches[i].stamped)
  {
    assert LeftBy(launches[i], launches[i].selection.current, launches[i].stamped);
  }

  lemma LookIsTraced(s: State, e: Event)
    requires e.Look? && e.launch < |s.launches| && Traced(s)
    ensures Traced(Step(s, e))
  {
    hide Left, Advance, Backed;
    var i := e.launch;
    var (l, writes) := Advance(s.disk, s.launches[i], e.saving);
    AdvanceIsTraced(s.disk, s.launches, i, e.saving);
    var next := s.launches[i := l];
    forall j | 0 <= j < |next|
      ensures Founded(next, next[j])
    {
      var m := s.launches[j];
      assert Founded(s.launches, m);
      if j != i && m.InPlace? && m.proof.None? {
        LeftStays(s.launches, i, l, m.selection.current, m.stamped);
      }
    }
  }

  lemma StartIsTraced(s: State)
    requires Traced(s)
    ensures Traced(Step(s, Start))
  {
    hide Left;
    if Entry in s.disk {
      var l := Started(s.disk[Entry]);
      var next := s.launches + [l];
      if Receipt in s.disk && s.disk[Receipt].StampDoc? {
        LeftGrows(s.launches, l, s.disk[Receipt].release, s.disk[Receipt].file);
      }
      forall j | 0 <= j < |next|
        ensures Founded(next, next[j])
      {
        if j < |s.launches| {
          var m := s.launches[j];
          assert next[j] == m && Founded(s.launches, m);
          if m.InPlace? && m.proof.None? {
            LeftGrows(s.launches, l, m.selection.current, m.stamped);
          }
        }
      }
    }
  }

  lemma StepIsTraced(s: State, e: Event)
    requires Traced(s) && LeavesReceipt(s.todo)
    ensures Traced(Step(s, e)) && LeavesReceipt(Step(s, e).todo)
  {
    hide Advance, ApplyPlan, Founded, Left, Lands;
    match e
    case Begin(r, w) =>
      if s.todo == [] {
        ApplyLeavesReceipt(s.disk, r, w);
      }
    case Proceed(links) =>
      if s.todo != [] {
        assert s.todo[0] in s.todo;
      }
    case PowerLoss =>
    case Start =>
      StartIsTraced(s);
    case Look(i, saving) =>
      LookLeaves(s, e);
      if i < |s.launches| {
        LookIsTraced(s, e);
      }
    case Tamper(change) =>
  }

  lemma {:induction false} RunIsTraced(s: State, events: seq<Event>)
    requires Traced(s) && LeavesReceipt(s.todo)
    ensures Traced(Run(s, events))
    decreases |events|
  {
    hide Traced, LeavesReceipt, Step;
    if events != [] {
      StepIsTraced(s, events[0]);
      RunIsTraced(Step(s, events[0]), events[1..]);
    }
  }

  lemma NothingLaunched(s: State)
    requires Initial(s)
    ensures Traced(s) && LeavesReceipt(s.todo)
  {
  }

  /** At every moment of every run a receipt was left by a launch, and is true exactly when
      the entry that launch stamped is the one it proved. */
  lemma EveryReceiptExactly(s: State, events: seq<Event>) returns (j: nat)
    requires Initial(s)
    ensures
      var end := Run(s, events);
      Receipt in end.disk && end.disk[Receipt].StampDoc? ==>
        && j < |end.launches| && LeftBy(end.launches[j], end.disk[Receipt].release, end.disk[Receipt].file)
        && (ReceiptTrue(end.disk) <==> end.launches[j].stamped == end.launches[j].proof.value)
  {
    hide Run, LeavesReceipt;
    NothingLaunched(s);
    RunIsTraced(s, events);
    var end := Run(s, events);
    j := 0;
    if Receipt in end.disk && end.disk[Receipt].StampDoc? {
      j :| 0 <= j < |end.launches| && LeftBy(end.launches[j], end.disk[Receipt].release, end.disk[Receipt].file);
      assert Founded(end.launches, end.launches[j]);
    }
  }

  /** In every run, a launch that starts a child runs the admitted image of the selection
      it read. One that stays in place relies on the proof of some launch, its own or the
      one whose receipt it matched, and runs that image exactly when the program it was
      loaded from is the entry that was proved. */
  lemma EveryLaunchExactly(s: State, events: seq<Event>, i: nat) returns (j: nat)
    requires Initial(s) && i < |Run(s, events).launches|
    ensures
      var ls := Run(s, events).launches;
      && (ls[i].Child? ==> ImageOf(ls[i].selection.current, Product(ls[i]).value))
      && (ls[i].InPlace? ==>
            && j < |ls| && StandsOn(ls[i], ls[j])
            && (ImageOf(ls[i].selection.current, Product(ls[i]).value) <==> ls[i].image == ls[j].proof.value))
  {
    hide Run, LeavesReceipt, ImageOf;
    NothingLaunched(s);
    RunIsTraced(s, events);
    var ls := Run(s, events).launches;
    assert Founded(ls, ls[i]);
    j := i;
    if ls[i].InPlace? {
      if ls[i].proof.None? {
        j :| 0 <= j < |ls| && LeftBy(ls[j], ls[i].selection.current, ls[i].stamped);
      }
      assert Founded(ls, ls[j]);
      ProductExactly(ls[i], ls[j]);
    } else if ls[i].Child? {
      ProductExactly(ls[i], ls[i]);
    }
  }

  // ----- Launches while the entry rests -----

  /** While a launch is under way the entry keeps its bytes. */
  predicate Quiet(s: State, e: Event) {
    (exists i :: 0 <= i < |s.launches| && !Over(s.launches[i])) ==>
      (Entry in s.disk <==> Entry in Step(s, e).disk)
      && (Entry in s.disk ==> Step(s, e).disk[Entry] == s.disk[Entry])
  }

  /** Every launch under way runs the entry as it is. */
  ghost predicate Steady(s: State) {
    forall i :: 0 <= i < |s.launches| ==>
      && (!Over(s.launches[i]) ==> Entry in s.disk && s.launches[i].image == s.disk[Entry])
      && Loyal(s.launches[i])
  }

  /** What the launch stamped and proved is the program that runs. */
  predicate Loyal(l: Launch) {
    match l
    case Stamped(image, _, stamped) => stamped == image
    case Doubted(image, _, stamped) => stamped == image
    case Proven(image, _, stamped, proved) => stamped == image && proved == image
    case InPlace(image, _, stamped, proof) => stamped == image && (proof.Some? ==> proof.value == image)
    case _ => true
  }

  lemma AdvanceIsLoyal(v: Volume, l: Launch, saving: Saving)
    requires Loyal(l) && (!Over(l) ==> Entry in v && l.image == v[Entry])
    ensures
      var next := Advance(v, l, saving).0;
      Loyal(next) && next.image == l.image && (Over(l) ==> Over(next))
  {
  }

  lemma StepKeepsSteady(s: State, e: Event)
    requires Steady(s) && Quiet(s, e)
    ensures Steady(Step(s, e))
  {
    hide Advance, ApplyPlan;
    match e
    case Look(i, saving) =>
      LookLeaves(s, e);
      if i < |s.launches| {
        AdvanceIsLoyal(s.disk, s.launches[i], saving);
      }
    case _ =>
      QuietKeepsSteady(s, e);
  }

  lemma QuietKeepsSteady(s: State, e: Event)
    requires Steady(s) && Quiet(s, e) && !e.Look?
    ensures Steady(Step(s, e))
  {
    hide ApplyPlan, Loyal;
    var t := Step(s, e);
    forall j | 0 <= j < |t.launches|
      ensures !Over(t.launches[j]) ==> Entry in t.disk && t.launches[j].image == t.disk[Entry]
      ensures Loyal(t.launches[j])
    {
      if j < |s.launches| {
        assert t.launches[j] == s.launches[j];
      } else {
        StartIsLoyal(s.disk, t.launches[j]);
      }
    }
  }

  lemma StartIsLoyal(v: Volume, l: Launch)
    ensures l.Started? ==> Loyal(l)
  {
  }

  lemma {:induction false} RunKeepsSteady(s: State, events: seq<Event>)
    requires Steady(s) && Always(s, events, Quiet)
    ensures Steady(Run(s, events))
    decreases |events|
  {
    hide Steady, Step, Quiet;
    if events != [] {
      StepKeepsSteady(s, events[0]);
      RunKeepsSteady(Step(s, events[0]), events[1..]);
    }
  }

  /** In every run in which the entry keeps its bytes while a launch is under way, every
      launch fails or runs exactly the admitted image of the selection it read. */
  lemma EveryLaunchIsHonest(s: State, events: seq<Event>, i: nat)
    requires Initial(s) && Always(s, events, Quiet) && i < |Run(s, events).launches|
    ensures
      var l := Run(s, events).launches[i];
      l.Child? || l.InPlace? ==> ImageOf(l.selection.current, Product(l).value)
  {
    hide Run, Always, ImageOf;
    RunKeepsSteady(s, events);
    var j := EveryLaunchExactly(s, events, i);
    var ls := Run(s, events).launches;
    assert Loyal(ls[i]);
    if ls[i].InPlace? {
      assert Loyal(ls[j]);
    }
  }

  // ----- Undisturbed launches and requests, at every moment -----

  /** While nobody touches the staged releases, an installed product can be launched at
      every moment, also between the swap of the entry and the commit of the selector; it
      runs the selected image exactly when no false receipt vouches for the entry, and
      none does unless a transition is recorded. */
  lemma EveryLaunchSucceeds(s: State, events: seq<Event>)
    requires Initial(s) && Always(s, events, NoTamper)
    ensures
      var v := Run(s, events).disk;
      ReadActive(v).Holding? ==>
        && LaunchPlan(v).result.Ok?
        && (ImageOf(ReadActive(v).value.current, LaunchPlan(v).result.value) <==> !Misled(v))
        && (Misled(v) ==> ReadPending(v).Holding?)
  {
    hide Run, Always;
    RunKeepsStocked(s, events);
    var v := Run(s, events).disk;
    if ReadActive(v).Holding? {
      LaunchIsAvailable(v);
      LaunchExactly(v);
    }
  }

  /** Requests succeed one after another from every moment of a run in which nobody
      overwrites the entry: what was interrupted completes, and recovery converges. */
  lemma EveryMomentRecovers(s: State, events: seq<Event>, r: Request, attempts: seq<Attempt>, w: World,
                            prints: Content -> string)
    requires Initial(s) && Always(s, events, LeavesEntry)
    requires Repeatable(r) && forall a :: a in attempts ==> Kinder(a.world, w)
    requires ApplyPlan(Run(s, events).disk, r, w).result.Ok?
    ensures
      var v := Run(s, events).disk;
      var p := ApplyPlan(v, r, w);
      && Reaches(AfterAttempts(v, r, attempts), r, w, p.result.value, Replay(v, p.writes))
      && Status(Replay(v, p.writes), r.expected, prints) == p.result
  {
    hide Run, Always, LeavesEntry;
    EveryMomentIsSafe(s, events);
    RecoveryConverges(Run(s, events).disk, r, attempts, w);
    ApplyThenStatus(Run(s, events).disk, r, w, prints);
  }
}
