/** Exceptions that runs really reach, from an empty disk and with nothing but requests
    that nobody disturbs, launches and, in one of them, one rewritten file. */
module TransactionReached {
  import opened Outcome
  import opened Package
  import opened Transaction
  import opened TransactionReceipt
  import opened TransactionSafety
  import opened TransactionRecovery
  import opened TransactionRuns
  import opened TransactionInstall
  import opened TransactionLaunch
  import opened TransactionMoments
  import opened TransactionLanding

  const EMPTY := State(map[], [], map[], 0, [])

  lemma EmptyIsInitial()
    ensures Initial(EMPTY)
  {
  }

  function InstallOf(source: Source): Request {
    Request(Install(source, None), None)
  }

  /** The installation is in order and nobody is installing. */
  ghost predicate AtRest(s: State) {
    s.todo == [] && Safe(s.disk) && Stocked(s.disk) && ReadPending(s.disk).Absent?
  }

  /** The world answers, and the package can be staged. */
  ghost predicate Ready(v: Volume, source: Source, w: World) {
    Qualified(source) && Unspoiled(v, source) && w.registers && source.release in w.healthy
  }

  /** What an installation leaves, exactly. */
  function Installed(v: Volume, source: Source): Volume
    requires Qualified(source) && !ReadActive(v).Corrupt?
  {
    QualifiedHasFiles(source);
    Filled(v, source, STAGED)
      [Entry := source.files[Executable]]
      [Active := SelectionDoc(InstallTarget(source.release, Observed(ReadActive(v)), None))]
  }

  /** An undisturbed installation over an installation at rest succeeds and is at rest. */
  lemma InstallRests(v: Volume, source: Source, w: World)
    requires Safe(v) && Stocked(v) && ReadPending(v).Absent? && Ready(v, source, w)
    ensures !ReadActive(v).Corrupt?
    ensures
      var p := ApplyPlan(v, InstallOf(source), w);
      var after := InstallTarget(source.release, Observed(ReadActive(v)), None);
      var u := Replay(v, p.writes);
      && p.result == Ok(after)
      && Safe(u) && Stocked(u) && ReadPending(u).Absent? && ReadActive(u) == Holding(after)
      && u == Installed(v, source)
  {
    hide Safe, Stocked, Qualified, Unspoiled, FinishPlan, StagePlan;
    var r := InstallOf(source);
    InstallSucceeds(v, source, None, None, w);
    SafeReads(v);
    FreshInstallIs(v, r, w);
    ImportSucceedsExactly(v, source, None, ReadActive(v).Absent?);
    var p := ApplyPlan(v, r, w);
    ApplyKeepsSafe(v, r, w);
    ApplyKeepsStocked(v, r, w);
    ThroughoutEnd(v, p.writes, Safe);
    ThroughoutEnd(v, p.writes, Stocked);
    InstallSettles(v, source, w);
  }

  lemma CommitSettles(v: Volume, t: Transition, w: World)
    requires CommitPlan(v, t, w).result.Ok?
    ensures Admissible(t.after.dispatcher)
    ensures Replay(v, CommitPlan(v, t, w).writes) == Settled(v, t.after)
  {
    hide FinishPlan;
    var u := Perform(v, Put(Pending, TransitionDoc(t)));
    FinishSettles(u, t, w);
    var ws := CommitPlan(v, t, w).writes;
    assert ws[1..] == FinishPlan(u, t, w).writes;
    assert Settled(u, t.after) == Settled(v, t.after);
  }

  lemma StagedVolume(v: Volume, source: Source)
    requires Qualified(source) && Unspoiled(v, source) && Pending !in v
    ensures forall n :: n in STAGED ==> n in source.files
    ensures Replay(v, StagePlan(v, source).writes) == Filled(v, source, STAGED)
    ensures Pending !in Filled(v, source, STAGED)
    ensures source.release.Sha256? && source.release.of.Manifest?
    ensures source.release.of.artifact == Sha256(source.files[Executable])
  {
    StageFills(v, source, 0);
  }

  lemma InstallSettles(v: Volume, source: Source, w: World)
    requires Safe(v) && ReadPending(v).Absent? && Ready(v, source, w)
    requires FreshPlan(v, InstallOf(source), w).result.Ok?
    ensures !ReadActive(v).Corrupt?
    ensures Replay(v, FreshPlan(v, InstallOf(source), w).writes) == Installed(v, source)
  {
    hide Safe, CommitPlan, StagePlan, Filled, Qualified, Unspoiled, Valid, Admissible;
    var r := InstallOf(source);
    SafeReads(v);
    FreshInstallIs(v, r, w);
    StagedVolume(v, source);
    ImportSucceedsExactly(v, source, None, ReadActive(v).Absent?);
    var before := Observed(ReadActive(v));
    var after := InstallTarget(source.release, before, None);
    var v1 := Filled(v, source, STAGED);
    CommitSettles(v1, Transition(Requested(r), Dispatcher(before), before, after), w);
    assert Settled(v1, after) == Installed(v, source);
  }

  /** The last writes of a transition that swaps the entry. */
  function SwapWrites(image: Content, after: Selection): seq<Write> {
    [Put(Entry, image), Put(Active, SelectionDoc(after)), Drop(Pending)]
  }

  lemma CommitShape(v: Volume, t: Transition, w: World)
    requires CommitPlan(v, t, w).result.Ok?
    requires Entry in v ==> !ImageOf(t.after.dispatcher, v[Entry])
    ensures Admissible(t.after.dispatcher)
    ensures CommitPlan(v, t, w).writes
         == [Put(Pending, TransitionDoc(t))] + SwapWrites(t.after.dispatcher.of.artifact.of, t.after)
  {
    hide FinishPlan, Startable, Valid;
    var u := Perform(v, Put(Pending, TransitionDoc(t)));
    OkFinishIsReady(u, t, w);
  }

  /** An installation over another executable ends in the swap of the entry: `n` writes
      stage the release and record the transition. */
  lemma InstallShape(v: Volume, source: Source, w: World) returns (n: nat)
    requires Safe(v) && Stocked(v) && ReadPending(v).Absent? && Ready(v, source, w)
    requires Entry in v ==> !ImageOf(source.release, v[Entry])
    ensures !ReadActive(v).Corrupt? && forall name :: name in STAGED ==> name in source.files
    ensures
      var before := Observed(ReadActive(v));
      var after := InstallTarget(source.release, before, None);
      var ws := ApplyPlan(v, InstallOf(source), w).writes;
      && n <= |ws| && ws[n..] == SwapWrites(source.files[Executable], after)
      && Replay(v, ws[..n]) == Filled(v, source, STAGED)
           [Pending := TransitionDoc(Transition(Some(source.release), Dispatcher(before), before, after))]
  {
    hide Safe, Stocked, CommitPlan, StagePlan, Filled, Qualified, Unspoiled, Valid, ImageOf;
    var r := InstallOf(source);
    SafeReads(v);
    InstallRests(v, source, w);
    FreshInstallIs(v, r, w);
    StagedVolume(v, source);
    EntryUntouched(v, source);
    ImportSucceedsExactly(v, source, None, ReadActive(v).Absent?);
    var before := Observed(ReadActive(v));
    var after := InstallTarget(source.release, before, None);
    var t := Transition(Some(source.release), Dispatcher(before), before, after);
    var stage := StagePlan(v, source).writes;
    var v1 := Filled(v, source, STAGED);
    CommitShape(v1, t, w);
    var record := Put(Pending, TransitionDoc(t));
    var ws := ApplyPlan(v, r, w).writes;
    assert ws == stage + CommitPlan(v1, t, w).writes;
    n := |stage| + 1;
    assert ws[..n] == stage + [record];
    ReplayConcat(v, stage, [record]);
    assert [record][1..] == [];
  }

  lemma EntryUntouched(v: Volume, source: Source)
    requires forall n :: n in STAGED ==> n in source.files
    ensures Entry in Filled(v, source, STAGED) <==> Entry in v
    ensures Entry in v ==> Filled(v, source, STAGED)[Entry] == v[Entry]
  {
  }

  // ----- Undisturbed installations in runs -----

  ghost predicate NobodyTampers(events: seq<Event>) {
    forall e :: e in events ==> !e.Tamper?
  }

  lemma {:induction false} ProceedsTamperNot(n: nat)
    ensures NobodyTampers(Proceeds(n))
  {
    if n > 0 {
      ProceedsTamperNot(n - 1);
    }
  }

  /** A whole installation, alone. */
  function Whole(s: State, source: Source, w: World): seq<Event> {
    Serve(InstallOf(source), w, |ApplyPlan(s.disk, InstallOf(source), w).writes|)
  }

  lemma WholeRests(s: State, source: Source, w: World)
    requires AtRest(s) && Ready(s.disk, source, w)
    ensures !ReadActive(s.disk).Corrupt?
    ensures
      var end := Run(s, Whole(s, source, w));
      && AtRest(end) && end.disk == Installed(s.disk, source) && end.launches == s.launches
      && ReadActive(end.disk) == Holding(InstallTarget(source.release, Observed(ReadActive(s.disk)), None))
    ensures NobodyTampers(Whole(s, source, w))
  {
    hide Safe, Stocked, Ready, ApplyPlan, Run, Installed;
    var ws := ApplyPlan(s.disk, InstallOf(source), w).writes;
    InstallRests(s.disk, source, w);
    ServePerforms(s, InstallOf(source), w, |ws|);
    assert ws[..|ws|] == ws;
    ProceedsTamperNot(|ws|);
  }

  // ----- Two packages -----

  /** Two sound packages with different executables, in a world that answers. */
  predicate Different(a: Source, b: Source, w: World) {
    && Qualified(a) && Qualified(b) && Executable in a.files && Executable in b.files
    && a.files[Executable] != b.files[Executable]
    && w.registers && a.release in w.healthy && b.release in w.healthy
  }

  /** A sound package around an executable. */
  function Sample(program: string): Source {
    var binary, gates, other := Blob(program), Blob(POLICY), Blob("");
    var none := Sha256(other);
    var manifest := Manifest(HOST, Sha256(binary), |program|, Sha256(gates), none, none, none);
    Source(Sha256(manifest),
           map[Executable := binary, ManifestFile := manifest, Sbom := other, Notices := other,
               NativeAudit := other, Gates := gates])
  }

  /** There are such packages. */
  lemma SamplesDiffer(w: World)
    requires w.registers && Sample("1").release in w.healthy && Sample("2").release in w.healthy
    ensures Different(Sample("1"), Sample("2"), w)
  {
  }

  lemma EmptyIsReady(a: Source, w: World)
    requires Qualified(a) && w.registers && a.release in w.healthy
    ensures AtRest(EMPTY) && Ready(EMPTY.disk, a, w)
  {
    hide Qualified;
  }

  lemma ImagesDiffer(a: Source, b: Source, w: World)
    requires Different(a, b, w)
    ensures a.release.Sha256? && b.release.Sha256? && a.release != b.release
    ensures ImageOf(a.release, a.files[Executable]) && !ImageOf(b.release, a.files[Executable])
    ensures ImageOf(b.release, b.files[Executable]) && !ImageOf(a.release, b.files[Executable])
  {
  }

  /** After `a` alone was installed nothing stands in the way of `b`. */
  lemma SecondIsReady(a: Source, b: Source, w: World)
    requires Different(a, b, w)
    ensures Ready(Installed(map[], a), b, w)
  {
    hide Qualified, ImageOf;
    QualifiedHasFiles(a);
    ImagesDiffer(a, b, w);
    InstalledHoldsOnly(a, b.release);
  }

  lemma InstalledHoldsOnly(a: Source, other: Id)
    requires Qualified(a) && other != a.release
    ensures forall n :: Slot(other, n) !in Installed(map[], a)
    ensures forall id :: Build(id) !in Installed(map[], a)
  {
    hide Qualified;
  }

  /** A release that is complete in its place can be installed again. */
  lemma VerifiedIsReady(v: Volume, source: Source, w: World)
    requires Qualified(source) && Verified(v, source.release) && w.registers && source.release in w.healthy
    ensures Ready(v, source, w)
  {
    CompleteFilesAgree(source, Directory(v, source.release));
    forall n | n in STAGED && n in source.files && Slot(source.release, n) in v
      ensures v[Slot(source.release, n)] == source.files[n]
    {
      assert n in Directory(v, source.release);
    }
    assert Executable in Directory(v, source.release);
  }

  // ----- A launch that stays in place with the old image -----

  /** An installer is about to swap the entry for the release it will select. */
  predicate AboutToSwap(s: State, after: Selection) {
    && Valid(after) && after.current == after.dispatcher && Target(s.disk) == Some(after.dispatcher)
    && Entry in s.disk && Slot(after.dispatcher, Executable) in s.disk
    && s.todo == SwapWrites(s.disk[Slot(after.dispatcher, Executable)], after)
  }

  lemma SwapHappens(s: State, after: Selection)
    requires AboutToSwap(s, after)
    ensures
      var end := Run(s, Proceeds(3));
      && end.disk
         == s.disk[Entry := s.disk[Slot(after.dispatcher, Executable)]][Active := SelectionDoc(after)] - {Pending}
      && end.launches == s.launches
  {
    var ws := s.todo;
    SwapLands(s, after);
    ProceedsPerform(s, 3);
    assert ws[..3] == ws;
    assert Replay(s.disk, ws) == Replay(Perform(s.disk, ws[0]), ws[1..]);
    assert ws[1..][1..] == [ws[2]] && [ws[2]][1..] == [];
  }

  lemma SwapLands(s: State, after: Selection)
    requires AboutToSwap(s, after)
    ensures AllLand(s.disk, s.todo)
  {
    var u := Perform(s.disk, s.todo[0]);
    FreeWritesLand(u, s.todo[1..]);
  }

  /** The steps of one launch with nothing in between. */
  function Looks(i: nat, n: nat): seq<Event> {
    if n == 0 then [] else [Look(i, Kept)] + Looks(i, n - 1)
  }

  lemma LooksFirst(s: State, i: nat, n: nat)
    requires n > 0
    ensures Run(s, Looks(i, n)) == Run(Step(s, Look(i, Kept)), Looks(i, n - 1))
  {
    hide Step;
    assert Looks(i, n)[1..] == Looks(i, n - 1);
  }

  /** A launch that writes nothing only changes itself. */
  lemma LookAlone(s: State, i: nat, n: nat, next: Launch)
    requires n > 0 && i < |s.launches| && Advance(s.disk, s.launches[i], Kept) == (next, [])
    ensures Run(s, Looks(i, n)) == Run(s.(launches := s.launches[i := next]), Looks(i, n - 1))
  {
    hide Advance;
    LooksFirst(s, i, n);
  }

  lemma {:induction false} LooksOver(s: State, i: nat, n: nat)
    requires i < |s.launches| && Over(s.launches[i])
    ensures Run(s, Looks(i, n)).launches == s.launches
    decreases n
  {
    if n > 0 {
      LooksFirst(s, i, n);
      assert s.launches[i := s.launches[i]] == s.launches;
      LooksOver(Step(s, Look(i, Kept)), i, n - 1);
    }
  }

  /** A launch that starts before the swap and reads only after it stays in place with the
      old image, whatever the receipt says. */
  lemma SwapRunsTheOldImage(s: State, after: Selection)
    requires AboutToSwap(s, after) && Verified(s.disk, after.current)
    ensures
      var i := |s.launches|;
      var end := Run(Run(Step(s, Start), Proceeds(3)), Looks(i, 5));
      && |end.launches| == i + 1 && end.launches[i].InPlace? && end.launches[i].selection == after
      && Product(end.launches[i]) == Ok(s.disk[Entry])
  {
    hide Run, Looks, Proceeds, Verified, Opens, Directory, ImageOf, Target, Valid;
    var i := |s.launches|;
    var begun := Step(s, Start);
    SwapHappens(begun, after);
    var t := Run(begun, Proceeds(3));
    SwappedReads(s.disk, after);
    SwappedLaunch(t, i, s.disk[Entry], after);
  }

  lemma SwappedReads(v: Volume, after: Selection)
    requires Valid(after) && after.current == after.dispatcher
    requires Verified(v, after.current) && Slot(after.dispatcher, Executable) in v
    ensures
      var image := v[Slot(after.dispatcher, Executable)];
      var u := v[Entry := image][Active := SelectionDoc(after)] - {Pending};
      && Opens(Directory(u, after.current), after.current) && ImageOf(after.current, image)
      && Selected(u) == Ok(after)
  {
    var u := v[Entry := v[Slot(after.dispatcher, Executable)]][Active := SelectionDoc(after)] - {Pending};
    assert Directory(u, after.current) == Directory(v, after.current);
  }

  lemma SwappedLaunch(t: State, i: nat, gone: Content, after: Selection)
    requires i + 1 == |t.launches| && t.launches[i] == Started(gone)
    requires Selected(t.disk) == Ok(after) && after.current == after.dispatcher
    requires Entry in t.disk && ImageOf(after.current, t.disk[Entry])
    requires Opens(Directory(t.disk, after.current), after.current)
    ensures
      var end := Run(t, Looks(i, 5));
      && |end.launches| == i + 1 && end.launches[i].InPlace? && end.launches[i].selection == after
      && Product(end.launches[i]) == Ok(gone)
  {
    hide Run, Looks, Opens, Directory, ImageOf, Selected;
    var image := t.disk[Entry];
    LookAlone(t, i, 5, Chosen(gone, after));
    var t1 := t.(launches := t.launches[i := Chosen(gone, after)]);
    LookAlone(t1, i, 4, Stamped(gone, after, image));
    var t2 := t1.(launches := t1.launches[i := Stamped(gone, after, image)]);
    if Receipt in t.disk && t.disk[Receipt] == StampDoc(after.current, image) {
      LookAlone(t2, i, 3, InPlace(gone, after, image, None));
      LooksOver(t2.(launches := t2.launches[i := InPlace(gone, after, image, None)]), i, 2);
    } else {
      LookAlone(t2, i, 3, Doubted(gone, after, image));
      var t3 := t2.(launches := t2.launches[i := Doubted(gone, after, image)]);
      LookAlone(t3, i, 2, Proven(gone, after, image, image));
      var t4 := t3.(launches := t3.launches[i := Proven(gone, after, image, image)]);
      LooksFirst(t4, i, 1);
      LooksOver(Step(t4, Look(i, Kept)), i, 0);
    }
  }

  /** Installing one package and then another, from nothing, gets there. */
  lemma SwapIsReached(a: Source, b: Source, w: World) returns (events: seq<Event>)
    requires Different(a, b, w)
    ensures NobodyTampers(events)
    ensures
      var end := Run(EMPTY, events);
      var after := Selection(b.release, Some(a.release), b.release);
      && AboutToSwap(end, after) && Verified(end.disk, b.release)
      && end.disk[Entry] == a.files[Executable] && end.launches == []
  {
    hide Run, Safe, Stocked, ApplyPlan, Verified, Whole;
    EmptyIsReady(a, w);
    ImagesDiffer(a, b, w);
    WholeRests(EMPTY, a, w);
    var s := Run(EMPTY, Whole(EMPTY, a, w));
    SecondIsReady(a, b, w);
    events := Whole(EMPTY, a, w) + SecondHalf(s, a, b, w);
    RunConcat(EMPTY, Whole(EMPTY, a, w), SecondHalf(s, a, b, w));
    SecondInstall(s, a, b, w);
  }

  /** The second installation, up to the swap of the entry. */
  function SecondHalf(s: State, a: Source, b: Source, w: World): seq<Event> {
    var n := |ApplyPlan(s.disk, InstallOf(b), w).writes|;
    Serve(InstallOf(b), w, if n < 3 then 0 else n - 3)
  }

  lemma SecondInstall(s: State, a: Source, b: Source, w: World)
    requires AtRest(s) && Different(a, b, w) && Ready(s.disk, b, w)
    requires Entry in s.disk && s.disk[Entry] == a.files[Executable]
    requires ReadActive(s.disk).Holding? && ReadActive(s.disk).value.current == a.release
    ensures
      var end := Run(s, SecondHalf(s, a, b, w));
      var after := Selection(b.release, Some(a.release), b.release);
      && AboutToSwap(end, after) && Verified(end.disk, b.release)
      && end.disk == Filled(s.disk, b, STAGED)[Pending := end.disk[Pending]]
      && end.disk[Slot(b.release, Executable)] == b.files[Executable]
      && end.disk[Entry] == a.files[Executable] && end.launches == s.launches
    ensures NobodyTampers(SecondHalf(s, a, b, w))
  {
    hide Run, Safe, Stocked, ApplyPlan, Serve;
    ImagesDiffer(a, b, w);
    var n := InstallShape(s.disk, b, w);
    var ws := ApplyPlan(s.disk, InstallOf(b), w).writes;
    assert |ws| == n + |ws[n..]| == n + 3;
    ServePerforms(s, InstallOf(b), w, n);
    ServeTampersNot(InstallOf(b), w, n);
    assert SecondHalf(s, a, b, w) == Serve(InstallOf(b), w, n);
    StagedIsVerified(s.disk, b, w);
  }

  lemma ServeTampersNot(r: Request, w: World, n: nat)
    ensures NobodyTampers(Serve(r, w, n))
  {
    ProceedsTamperNot(n);
  }

  lemma StagedIsVerified(v: Volume, source: Source, w: World)
    requires Ready(v, source, w)
    ensures forall n :: n in STAGED ==> n in source.files
    ensures
      var full := Filled(v, source, STAGED);
      && Slot(source.release, Executable) in full
      && full[Slot(source.release, Executable)] == source.files[Executable]
      && forall t :: Verified(full[Pending := TransitionDoc(t)], source.release)
  {
    hide Qualified, Complete, Filled, Unspoiled;
    StageSucceedsExactly(v, source);
    StageFills(v, source, 0);
    var full := Filled(v, source, STAGED);
    assert Verified(full, source.release);
    CompleteFilesAgree(source, Directory(full, source.release));
    assert Executable in Directory(full, source.release);
    forall t
      ensures Verified(full[Pending := TransitionDoc(t)], source.release)
    {
      assert Directory(full[Pending := TransitionDoc(t)], source.release) == Directory(full, source.release);
    }
  }

  /** The exception happens, though nobody tampers with anything: the product that a launch
      runs for the selected release `b` is the executable of `a`. */
  lemma OldImageRuns(a: Source, b: Source, w: World) returns (events: seq<Event>)
    requires Different(a, b, w)
    ensures Initial(EMPTY) && NobodyTampers(events)
    ensures
      var end := Run(EMPTY, events);
      && |end.launches| == 1 && end.launches[0].InPlace? && end.launches[0].selection.current == b.release
      && Product(end.launches[0]) == Ok(a.files[Executable]) && !ImageOf(b.release, a.files[Executable])
  {
    hide Run, Different, Verified, AboutToSwap, ImageOf, Looks, Proceeds;
    EmptyIsInitial();
    ImagesDiffer(a, b, w);
    var before := SwapIsReached(a, b, w);
    var s := Run(EMPTY, before);
    var after := Selection(b.release, Some(a.release), b.release);
    SwapRunsTheOldImage(s, after);
    RunOne(s, Start);
    var t := Step(s, Start);
    RunConcat(t, Proceeds(3), Looks(0, 5));
    RunConcat(s, [Start], Proceeds(3) + Looks(0, 5));
    RunConcat(EMPTY, before, [Start] + (Proceeds(3) + Looks(0, 5)));
    events := before + ([Start] + (Proceeds(3) + Looks(0, 5)));
    ProceedsTamperNot(3);
    LooksTamperNot(0, 5);
  }

  lemma {:induction false} LooksTamperNot(i: nat, n: nat)
    ensures NobodyTampers(Looks(i, n))
    decreases n
  {
    if n > 0 {
      LooksTamperNot(i, n - 1);
    }
  }

  // ----- An entry overwritten through its link -----

  /** After a linked swap the entry and the staged executable are one file. */
  lemma SwapLinks(s: State, after: Selection)
    requires Consistent(s) && Slot(after.dispatcher, Executable) in s.disk && Target(s.disk) == Some(after.dispatcher)
    requires s.todo == SwapWrites(s.disk[Slot(after.dispatcher, Executable)], after)
    ensures
      var end := Run(s, Proceeds(3));
      && OneFile(end, Slot(after.dispatcher, Executable), Entry)
      && Slot(after.dispatcher, Executable) in end.disk && Entry in end.disk
      && end.disk[Entry] == s.disk[Slot(after.dispatcher, Executable)]
      && end.disk == Replay(s.disk, s.todo) && end.todo == []
  {
    hide Target;
    hide Run;
    EntryLinks(s, after);
    var s1 := Step(s, Proceed(true));
    RestKeepsLink(s1, after);
    ThreeProceeds(s);
    ThreeWrites(s.disk, s.todo);
  }

  lemma EntryLinks(s: State, after: Selection)
    requires Consistent(s) && Slot(after.dispatcher, Executable) in s.disk && Target(s.disk) == Some(after.dispatcher)
    requires s.todo == SwapWrites(s.disk[Slot(after.dispatcher, Executable)], after)
    ensures
      var p := Slot(after.dispatcher, Executable);
      var t := Step(s, Proceed(true));
      && p in t.file && Entry in t.file && t.file[Entry] == t.file[p]
      && t.disk == s.disk[Entry := s.disk[p]] && t.todo == [Put(Active, SelectionDoc(after)), Drop(Pending)]
  {
    hide Target;
    assert Lands(s.disk, s.todo[0]);
  }

  lemma RestKeepsLink(s: State, after: Selection)
    requires s.todo == [Put(Active, SelectionDoc(after)), Drop(Pending)]
    ensures
      var t := Step(Step(s, Proceed(true)), Proceed(true));
      && t.todo == [] && t.disk == s.disk[Active := SelectionDoc(after)] - {Pending}
      && forall p: Path :: p.Slot? || p == Entry ==>
                       (p in t.file <==> p in s.file) && (p in s.file ==> t.file[p] == s.file[p])
  {
    hide Target;
    var s1 := Step(s, Proceed(true));
    assert s1.todo == [Drop(Pending)];
  }

  lemma ThreeProceeds(s: State)
    ensures Run(s, Proceeds(3)) == Step(Step(Step(s, Proceed(true)), Proceed(true)), Proceed(true))
  {
    hide Step;
    assert Proceeds(3)[1..] == Proceeds(2) && Proceeds(2)[1..] == Proceeds(1) && Proceeds(1)[1..] == Proceeds(0);
  }

  lemma ThreeWrites(v: Volume, ws: seq<Write>)
    requires |ws| == 3
    ensures Replay(v, ws) == Perform(Perform(Perform(v, ws[0]), ws[1]), ws[2])
  {
    hide Perform;
    var rest := ws[1..];
    assert rest[0] == ws[1] && rest[1..] == [ws[2]] && [ws[2]][1..] == [];
    var u := Perform(Perform(v, ws[0]), ws[1]);
    assert Replay(u, [ws[2]]) == Replay(Perform(u, ws[2]), []);
  }

  /** A first installation with links, from nothing. */
  lemma LinkedInstall(a: Source, w: World) returns (events: seq<Event>)
    requires Qualified(a) && w.registers && a.release in w.healthy && Executable in a.files
    ensures NobodyTampers(events)
    ensures
      var s := Run(EMPTY, events);
      && Safe(s.disk) && ReadPending(s.disk).Absent? && ReadActive(s.disk).Holding?
      && Entry in s.disk && s.disk[Entry] == a.files[Executable] && Slot(a.release, Executable) in s.disk
      && OneFile(s, Slot(a.release, Executable), Entry)
  {
    hide Run, Safe, Stocked, ApplyPlan, Consistent, Proceeds, Serve, OneFile, Qualified, Ready, Filled, Installed;
    EmptyIsInitial();
    EmptyIsReady(a, w);
    InstallRests(EMPTY.disk, a, w);
    var n := InstallShape(EMPTY.disk, a, w);
    var ws := ApplyPlan(EMPTY.disk, InstallOf(a), w).writes;
    ServePerforms(EMPTY, InstallOf(a), w, n);
    ServeTampersNot(InstallOf(a), w, n);
    ProceedsTamperNot(3);
    var begun := Serve(InstallOf(a), w, n);
    EveryFileHasOneContent(EMPTY, begun);
    StagedIsVerified(EMPTY.disk, a, w);
    SwapLinks(Run(EMPTY, begun), InstallTarget(a.release, None, None));
    assert ws == ws[..n] + ws[n..];
    ReplayConcat(EMPTY.disk, ws[..n], ws[n..]);
    RunConcat(EMPTY, begun, Proceeds(3));
    events := begun + Proceeds(3);
  }

  /** Writing other bytes into the staged executable of an installed release breaks the
      crash invariant, in a run from nothing. */
  lemma RewriteBreaksSafe(a: Source, w: World, bytes: Content) returns (events: seq<Event>)
    requires Qualified(a) && w.registers && a.release in w.healthy
    requires Executable in a.files && bytes != a.files[Executable]
    ensures
      var s := Run(EMPTY, events);
      var hit := Tamper(Rewrite(Slot(a.release, Executable), bytes));
      && NobodyTampers(events) && Safe(s.disk) && ReadActive(s.disk).Holding?
      && !Safe(Step(s, hit).disk)
  {
    hide Run, Safe, OneFile, Qualified, Step;
    events := LinkedInstall(a, w);
    HitBreaks(Run(EMPTY, events), a.release, bytes);
  }

  lemma HitBreaks(s: State, id: Id, bytes: Content)
    requires Safe(s.disk) && ReadPending(s.disk).Absent? && Slot(id, Executable) in s.disk && Entry in s.disk
    requires OneFile(s, Slot(id, Executable), Entry) && bytes != s.disk[Entry]
    ensures !Safe(Step(s, Tamper(Rewrite(Slot(id, Executable), bytes))).disk)
  {
    hide Safe, OneFile;
    var e := Tamper(Rewrite(Slot(id, Executable), bytes));
    TamperKeepsSafeExactly(s, e);
    OverwritesExactly(s, e);
  }

  // ----- A false receipt -----

  lemma LookStep(s: State, l: Launch, next: Launch)
    requires s.launches == [l] && Advance(s.disk, l, Kept) == (next, [])
    ensures Step(s, Look(0, Kept)) == s.(launches := [next])
  {
    hide Advance;
    assert s.launches[0 := next] == [next];
  }

  lemma InstalledReads(v: Volume, source: Source)
    requires Qualified(source) && !ReadActive(v).Corrupt? && Receipt !in v
    ensures
      var u := Installed(v, source);
      var after := InstallTarget(source.release, Observed(ReadActive(v)), None);
      && Entry in u && u[Entry] == source.files[Executable] && Receipt !in u
      && (Valid(after) ==> Selected(u) == Ok(after))
  {
  }

  /** `a` is installed, and a launch has read the selector. */
  lemma FirstAct(a: Source, w: World) returns (events: seq<Event>)
    requires Qualified(a) && w.registers && a.release in w.healthy && Executable in a.files
    ensures NobodyTampers(events)
    ensures
      var s := Run(EMPTY, events);
      var sel := Selection(a.release, None, a.release);
      && AtRest(s) && s.disk == Installed(map[], a) && ReadActive(s.disk) == Holding(sel)
      && s.launches == [Chosen(a.files[Executable], sel)]
  {
    hide Run, Safe, Stocked, Whole, Qualified, Installed;
    EmptyIsReady(a, w);
    WholeRests(EMPTY, a, w);
    var s := Run(EMPTY, Whole(EMPTY, a, w));
    var sel := Selection(a.release, None, a.release);
    InstalledReads(map[], a);
    SafeReads(s.disk);
    var begun := Step(s, Start);
    assert begun.launches == [Started(a.files[Executable])];
    LookStep(begun, Started(a.files[Executable]), Chosen(a.files[Executable], sel));
    var last := [Start] + [Look(0, Kept)];
    events := Whole(EMPTY, a, w) + last;
    RunConcat(EMPTY, Whole(EMPTY, a, w), last);
    RunConcat(s, [Start], [Look(0, Kept)]);
    RunOne(s, Start);
    RunOne(begun, Look(0, Kept));
  }

  lemma TwoLooks(s: State, before: seq<Event>)
    ensures Run(s, before + [Look(0, Kept), Look(0, Kept)])
         == Step(Step(Run(s, before), Look(0, Kept)), Look(0, Kept))
  {
    hide Run, Step;
    var t := Run(s, before);
    RunConcat(s, before, [Look(0, Kept), Look(0, Kept)]);
    assert [Look(0, Kept)] + [Look(0, Kept)] == [Look(0, Kept), Look(0, Kept)];
    RunConcat(t, [Look(0, Kept)], [Look(0, Kept)]);
    RunOne(t, Look(0, Kept));
    RunOne(Step(t, Look(0, Kept)), Look(0, Kept));
  }

  /** `b` is installed over it, and the launch stamps the entry. */
  lemma SecondAct(s: State, a: Source, b: Source, w: World) returns (events: seq<Event>)
    requires AtRest(s) && Different(a, b, w) && s.disk == Installed(map[], a)
    requires ReadActive(s.disk) == Holding(Selection(a.release, None, a.release))
    requires s.launches == [Chosen(a.files[Executable], Selection(a.release, None, a.release))]
    ensures NobodyTampers(events)
    ensures
      var t := Run(s, events);
      && AtRest(t) && Receipt !in t.disk
      && ReadActive(t.disk) == Holding(Selection(b.release, Some(a.release), b.release))
      && t.launches == [Doubted(a.files[Executable], Selection(a.release, None, a.release), b.files[Executable])]
  {
    hide Run, Safe, Stocked, Whole, Qualified, Installed, Ready;
    ImagesDiffer(a, b, w);
    SecondIsReady(a, b, w);
    InstalledReads(map[], a);
    InstalledReads(s.disk, b);
    WholeRests(s, b, w);
    var u := Run(s, Whole(s, b, w));
    var image, sel := a.files[Executable], Selection(a.release, None, a.release);
    LookStep(u, Chosen(image, sel), Stamped(image, sel, b.files[Executable]));
    var u1 := u.(launches := [Stamped(image, sel, b.files[Executable])]);
    LookStep(u1, Stamped(image, sel, b.files[Executable]), Doubted(image, sel, b.files[Executable]));
    events := Whole(s, b, w) + [Look(0, Kept), Look(0, Kept)];
    TwoLooks(s, Whole(s, b, w));
  }

  /** `a` is installed again, and the launch proves the entry and leaves its receipt. */
  lemma ThirdAct(s: State, a: Source, b: Source, w: World) returns (events: seq<Event>)
    requires AtRest(s) && Different(a, b, w) && Receipt !in s.disk
    requires ReadActive(s.disk) == Holding(Selection(b.release, Some(a.release), b.release))
    requires s.launches == [Doubted(a.files[Executable], Selection(a.release, None, a.release), b.files[Executable])]
    ensures NobodyTampers(events)
    ensures
      var t := Run(s, events);
      && AtRest(t) && ReadActive(t.disk) == Holding(Selection(a.release, Some(b.release), a.release))
      && Receipt in t.disk && t.disk[Receipt] == StampDoc(a.release, b.files[Executable])
      && Entry in t.disk && t.disk[Entry] == a.files[Executable] && Verified(t.disk, b.release)
  {
    hide Run, Safe, Stocked, Whole, Qualified, Installed, Ready, Verified, ImageOf, Opens, Directory;
    ImagesDiffer(a, b, w);
    NamedIsVerified(s.disk);
    VerifiedIsReady(s.disk, a, w);
    InstalledReads(s.disk, a);
    WholeRests(s, a, w);
    var u := Run(s, Whole(s, a, w));
    NamedIsVerified(u.disk);
    VerifiedOpens(u.disk, a.release);
    var image, sel := a.files[Executable], Selection(a.release, None, a.release);
    LookStep(u, Doubted(image, sel, b.files[Executable]), Proven(image, sel, b.files[Executable], image));
    var u1 := u.(launches := [Proven(image, sel, b.files[Executable], image)]);
    events := Whole(s, a, w) + [Look(0, Kept), Look(0, Kept)];
    TwoLooks(s, Whole(s, a, w));
    ReceiptWritten(u1, image, sel, b.files[Executable]);
  }

  lemma NamedIsVerified(v: Volume)
    requires Stocked(v) && ReadActive(v).Holding?
    ensures
      var s := ReadActive(v).value;
      Verified(v, s.current) && (s.previous.Some? ==> Verified(v, s.previous.value))
  {
  }

  lemma VerifiedOpens(v: Volume, id: Id)
    requires Verified(v, id)
    ensures Opens(Directory(v, id), id)
  {
  }

  lemma ReceiptWritten(s: State, image: Content, sel: Selection, stamped: Content)
    requires AtRest(s) && s.launches == [Proven(image, sel, stamped, image)]
    ensures
      var t := Step(s, Look(0, Kept));
      && AtRest(t) && t.disk == s.disk[Receipt := StampDoc(sel.current, stamped)]
      && forall id :: Verified(s.disk, id) ==> Verified(t.disk, id)
  {
    hide Stocked;
    var t := Step(s, Look(0, Kept));
    var w := Put(Receipt, StampDoc(sel.current, stamped));
    assert [w][1..] == [];
    assert Replay(s.disk, [w]) == Perform(s.disk, w);
    assert SlotsKept(s.disk, t.disk);
    StockedKept(s.disk, t.disk);
    forall id | Verified(s.disk, id)
      ensures Verified(t.disk, id)
    {
      VerifiedKept(s.disk, t.disk, id);
    }
  }

  /** A launch that outlasts two installations can leave a false receipt, though nobody
      tampers with anything. */
  lemma FalseReceiptIsLeft(a: Source, b: Source, w: World) returns (events: seq<Event>)
    requires Different(a, b, w)
    ensures Initial(EMPTY) && NobodyTampers(events)
    ensures
      var s := Run(EMPTY, events);
      && AtRest(s) && ReadActive(s.disk) == Holding(Selection(a.release, Some(b.release), a.release))
      && Receipt in s.disk && s.disk[Receipt] == StampDoc(a.release, b.files[Executable])
      && Entry in s.disk && s.disk[Entry] == a.files[Executable] && Verified(s.disk, b.release)
      && !ReceiptTrue(s.disk)
  {
    hide Run, AtRest, Verified, ImageOf, Qualified, Installed;
    EmptyIsInitial();
    ImagesDiffer(a, b, w);
    var first := FirstAct(a, w);
    var s1 := Run(EMPTY, first);
    var second := SecondAct(s1, a, b, w);
    var s2 := Run(s1, second);
    var third := ThirdAct(s2, a, b, w);
    RunConcat(s1, second, third);
    RunConcat(EMPTY, first, second + third);
    events := first + (second + third);
  }

  /** And such a receipt can mislead a launch that nothing disturbs, between the swap of
      the entry and the commit of the selector. */
  lemma FalseReceiptMisleads(a: Source, b: Source, w: World) returns (events: seq<Event>)
    requires Different(a, b, w)
    ensures Initial(EMPTY) && NobodyTampers(events) && Misled(Run(EMPTY, events).disk)
  {
    hide Run, Safe, Stocked, Verified, ImageOf, Qualified, Ready, SecondHalf, Filled;
    EmptyIsInitial();
    ImagesDiffer(a, b, w);
    var before := FalseReceiptIsLeft(a, b, w);
    var s := Run(EMPTY, before);
    VerifiedIsReady(s.disk, b, w);
    SecondInstall(s, a, b, w);
    var t := Run(s, SecondHalf(s, a, b, w));
    FilledKeepsRest(s.disk, b);
    assert Lands(t.disk, t.todo[0]);
    assert Step(t, Proceed(true)).disk == t.disk[Entry := b.files[Executable]];
    RunOne(t, Proceed(true));
    RunConcat(s, SecondHalf(s, a, b, w), [Proceed(true)]);
    RunConcat(EMPTY, before, SecondHalf(s, a, b, w) + [Proceed(true)]);
    events := before + (SecondHalf(s, a, b, w) + [Proceed(true)]);
  }

  lemma FilledKeepsRest(v: Volume, source: Source)
    requires Qualified(source)
    ensures forall n :: n in STAGED ==> n in source.files
    ensures
      var full := Filled(v, source, STAGED);
      && ReadActive(full) == ReadActive(v)
      && (Receipt in full <==> Receipt in v) && (Receipt in v ==> full[Receipt] == v[Receipt])
  {
    QualifiedHasFiles(source);
  }
}
