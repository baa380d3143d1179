/** Whole runs of one installation: requests, power losses, launches and changes to the
    staged releases, interleaved at every durable write and at every read of a launch. */
module TransactionMoments {
  import opened Outcome
  import opened Package
  import opened Transaction
  import opened TransactionSafety
  import opened TransactionSelector
  import opened TransactionRecovery
  import opened TransactionRuns
  import opened TransactionLaunch

  /** The disk; the durable writes the running installer has still to do; which file is
      under each name, for names of one file have one number, and the next number; and
      the launches, in the order they started. */
  datatype State = State(disk: Volume, todo: seq<Write>, file: map<Path, nat>, next: nat, launches: seq<Launch>)

  /** What others do to a staged release or an older build: put a new file there, write
      into the file that is there, under all its names, or remove it. */
  datatype Change =
    | Replace(path: Path, content: Content)
    | Rewrite(path: Path, content: Content)
    | Delete(path: Path)

  datatype Event =
    | Begin(request: Request, world: World)          // an installer takes the lock
    | Proceed(links: bool)                           // its next durable write lands
    | PowerLoss                                      // it dies
    | Start                                          // somebody starts the entry
    | Look(launch: nat, saving: Saving)              // a launch takes its next step
    | Tamper(change: Change)                         // a staged file is changed

  predicate Staged(p: Path) {
    p.Slot? || p.Build?
  }

  /** The two names are of one file. */
  predicate OneFile(s: State, p: Path, q: Path) {
    p == q || ((Staged(q) || q == Entry) && p in s.file && q in s.file && s.file[p] == s.file[q])
  }

  /** The release that the recorded transition swaps in. */
  function Target(v: Volume): Option<Id> {
    var pending := ReadPending(v);
    if pending.Holding? then Some(pending.value.after.dispatcher) else None
  }

  /** The file that a write links to if it can: the staged executable for the entry, an
      older build for a staged executable. */
  function Origin(v: Volume, p: Path): Option<Path> {
    if p == Entry && Target(v).Some? then Some(Slot(Target(v).value, Executable))
    else if p.Slot? && p.name == Executable && p.id.Sha256? && p.id.of.Manifest? && Build(p.id.of.artifact) in v then
      Some(Build(p.id.of.artifact))
    else None
  }

  /** The installer finds what it links or copies as it planned it; otherwise it stops. */
  predicate Lands(v: Volume, w: Write) {
    && (w.Put? && w.path == Entry ==> Origin(v, Entry).Some? && Origin(v, Entry).value in v)
    && (w.Put? && Origin(v, w.path).Some? ==>
          Origin(v, w.path).value in v && v[Origin(v, w.path).value] == w.content)
  }

  /** The next write of the installer: a link or a new file. */
  function Landed(s: State, links: bool): State
    requires s.todo != []
  {
    var w := s.todo[0];
    var t := s.(disk := Perform(s.disk, w), todo := s.todo[1..]);
    if w.Drop? then t.(file := s.file - {w.path})
    else
      var origin := Origin(s.disk, w.path);
      if links && origin.Some? && origin.value in s.file then t.(file := s.file[w.path := s.file[origin.value]])
      else t.(file := s.file[w.path := s.next], next := s.next + 1)
  }

  function Tampered(s: State, c: Change): State {
    if !Staged(c.path) then s
    else
      match c
      case Replace(p, x) => s.(disk := s.disk[p := x], file := s.file[p := s.next], next := s.next + 1)
      case Rewrite(p, x) =>
        if p in s.disk then s.(disk := map q | q in s.disk :: if OneFile(s, p, q) then x else s.disk[q]) else s
      case Delete(p) => s.(disk := s.disk - {p}, file := s.file - {p})
  }

  function Step(s: State, e: Event): State {
    match e
    case Begin(r, w) => if s.todo == [] then s.(todo := ApplyPlan(s.disk, r, w).writes) else s
    case Proceed(links) =>
      if s.todo == [] then s
      else if Lands(s.disk, s.todo[0]) then Landed(s, links)
      else s.(todo := [])
    case PowerLoss => s.(todo := [])
    case Start =>
      if Entry in s.disk then s.(launches := s.launches + [Started(s.disk[Entry])]) else s
    case Look(i, saving) =>
      if i < |s.launches| then
        var (l, writes) := Advance(s.disk, s.launches[i], saving);
        s.(disk := Replay(s.disk, writes), launches := s.launches[i := l])
      else s
    case Tamper(change) => Tampered(s, change)
  }

  function Run(s: State, events: seq<Event>): State
    decreases |events|
  {
    if events == [] then s else Run(Step(s, events[0]), events[1..])
  }

  /** Names of one file have one content, every file that can be linked has a number, and
      none has the next. */
  ghost predicate Consistent(s: State) {
    && (forall p :: p in s.disk && (Staged(p) || p == Entry) ==> p in s.file)
    && (forall p :: p in s.file ==> s.file[p] < s.next)
    && (forall p, q :: p in s.file && q in s.file && s.file[p] == s.file[q] && p != q ==>
          && (Staged(p) || p == Entry) && (Staged(q) || q == Entry)
          && p in s.disk && q in s.disk && s.disk[p] == s.disk[q])
  }

  /** Nothing is installed and nobody is installing. */
  ghost predicate Initial(s: State) {
    && s.todo == [] && s.launches == [] && Consistent(s)
    && Active !in s.disk && Pending !in s.disk && Entry !in s.disk && Receipt !in s.disk
  }

  /** The property holds of every event of a run, in the state it meets. */
  ghost predicate Always(s: State, events: seq<Event>, p: (State, Event) -> bool)
    decreases |events|
  {
    events != [] ==> p(s, events[0]) && Always(Step(s, events[0]), events[1..], p)
  }

  // ----- Kinds of runs -----

  /** The event does not change the bytes of the entry behind the installer's back. */
  predicate LeavesEntry(s: State, e: Event) {
    e.Tamper? && Entry in s.disk ==> Step(s, e).disk[Entry] == s.disk[Entry]
  }

  predicate NoTamper(s: State, e: Event) {
    !e.Tamper?
  }

  // ----- One file, one content -----

  lemma LandedKeepsConsistent(s: State, links: bool)
    requires Consistent(s) && s.todo != [] && Lands(s.disk, s.todo[0])
    ensures Consistent(Landed(s, links))
  {
    hide Target, Origin, Consistent;
    var w := s.todo[0];
    var origin := Origin(s.disk, w.path);
    OriginIsStaged(s.disk, w.path);
    if w.Drop? {
      DropKeepsConsistent(s, w.path);
      SameFiles(s.(disk := s.disk - {w.path}, file := s.file - {w.path}), Landed(s, links));
    } else if links && origin.Some? && origin.value in s.file {
      LinkKeepsConsistent(s, w.path, origin.value);
      SameFiles(s.(disk := s.disk[w.path := w.content], file := s.file[w.path := s.file[origin.value]]),
                Landed(s, links));
    } else {
      NewKeepsConsistent(s, w.path, w.content);
      SameFiles(s.(disk := s.disk[w.path := w.content], file := s.file[w.path := s.next], next := s.next + 1),
                Landed(s, links));
    }
  }

  lemma SameFiles(s: State, t: State)
    requires Consistent(s) && t.disk == s.disk && t.file == s.file && t.next == s.next
    ensures Consistent(t)
  {
  }

  lemma DropKeepsConsistent(s: State, p: Path)
    requires Consistent(s)
    ensures Consistent(s.(disk := s.disk - {p}, file := s.file - {p}))
  {
  }

  lemma LinkKeepsConsistent(s: State, p: Path, from: Path)
    requires Consistent(s) && from in s.file && from in s.disk && from != p
    requires (Staged(p) || p == Entry) && Staged(from)
    ensures Consistent(s.(disk := s.disk[p := s.disk[from]], file := s.file[p := s.file[from]]))
  {
  }

  lemma NewKeepsConsistent(s: State, p: Path, c: Content)
    requires Consistent(s)
    ensures Consistent(s.(disk := s.disk[p := c], file := s.file[p := s.next], next := s.next + 1))
  {
  }

  lemma OriginIsStaged(v: Volume, p: Path)
    ensures Origin(v, p).Some? ==> (Staged(p) || p == Entry) && Staged(Origin(v, p).value) && Origin(v, p).value != p
  {
  }

  lemma TamperedKeepsConsistent(s: State, c: Change)
    requires Consistent(s)
    ensures Consistent(Tampered(s, c))
  {
  }

  lemma StepKeepsConsistent(s: State, e: Event)
    requires Consistent(s)
    ensures Consistent(Step(s, e))
  {
    hide Advance, ApplyPlan, Landed, Tampered, Lands;
    match e
    case Proceed(links) =>
      if s.todo != [] && Lands(s.disk, s.todo[0]) {
        LandedKeepsConsistent(s, links);
      }
    case Look(i, saving) =>
      LookLeaves(s, e);
    case Tamper(change) =>
      TamperedKeepsConsistent(s, change);
    case _ =>
  }

  lemma {:induction false} EveryFileHasOneContent(s: State, events: seq<Event>)
    requires Consistent(s)
    ensures Consistent(Run(s, events))
    decreases |events|
  {
    hide Consistent, Step;
    if events != [] {
      StepKeepsConsistent(s, events[0]);
      EveryFileHasOneContent(Step(s, events[0]), events[1..]);
    }
  }

  // ----- The selector and the record, in every run -----

  /** The two volumes agree on the selector, the record and whether there is an entry. */
  ghost predicate AgreeOnOrder(v: Volume, u: Volume) {
    && (forall p :: p == Active || p == Pending ==> (p in v <==> p in u) && (p in v ==> v[p] == u[p]))
    && (Entry in v <==> Entry in u)
  }

  lemma {:induction false} OrderReadsLittle(v: Volume, u: Volume, ws: seq<Write>)
    requires AgreeOnOrder(v, u) && Throughout(v, ws, Ordered)
    ensures Throughout(u, ws, Ordered)
    decreases |ws|
  {
    assert Ordered(u);
    if ws != [] {
      OrderReadsLittle(Perform(v, ws[0]), Perform(u, ws[0]), ws[1..]);
    }
  }

  /** The two volumes differ in the receipt at most. */
  ghost predicate AgreeOnRest(v: Volume, u: Volume) {
    forall p :: p != Receipt ==> (p in v <==> p in u) && (p in v ==> v[p] == u[p])
  }

  /** A launch writes nothing but the receipt. */
  lemma LookLeaves(s: State, e: Event)
    requires e.Look?
    ensures AgreeOnRest(s.disk, Step(s, e).disk)
    ensures Step(s, e).todo == s.todo
  {
    hide Advance;
    if e.launch < |s.launches| {
      AdvanceWrites(s.disk, s.launches[e.launch], e.saving);
    }
  }

  lemma StepKeepsOrder(s: State, e: Event)
    requires Throughout(s.disk, s.todo, Ordered)
    ensures Throughout(Step(s, e).disk, Step(s, e).todo, Ordered)
  {
    hide Advance, ApplyPlan;
    match e
    case Begin(r, w) =>
      if s.todo == [] {
        ApplyKeepsOrdered(s.disk, r, w);
      }
    case Proceed(links) =>
    case PowerLoss =>
    case Start =>
    case Look(i, saving) =>
      LookLeaves(s, e);
      OrderReadsLittle(s.disk, Step(s, e).disk, s.todo);
    case Tamper(change) =>
      OrderReadsLittle(s.disk, Step(s, e).disk, s.todo);
  }

  lemma {:induction false} RunKeepsOrder(s: State, events: seq<Event>)
    requires Throughout(s.disk, s.todo, Ordered)
    ensures Throughout(Run(s, events).disk, Run(s, events).todo, Ordered)
    decreases |events|
  {
    hide Ordered, Step;
    if events != [] {
      StepKeepsOrder(s, events[0]);
      RunKeepsOrder(Step(s, events[0]), events[1..]);
    }
  }

  /** At every moment of every run the selector and the record are in order: valid
      selections, the selector one of the two that the record names, and an entry
      wherever something is selected. Nothing that happens to staged releases changes
      that, not even bytes overwritten through the link to the entry. */
  lemma EveryMomentIsOrdered(s: State, events: seq<Event>)
    requires Initial(s)
    ensures Ordered(Run(s, events).disk)
  {
    RunKeepsOrder(s, events);
  }

  // ----- The entry -----

  ghost predicate AgreeOnCore(v: Volume, u: Volume) {
    forall p :: p == Active || p == Pending || p == Entry ==> (p in v <==> p in u) && (p in v ==> v[p] == u[p])
  }

  lemma {:induction false} SafeReadsCoreOnly(v: Volume, u: Volume, ws: seq<Write>)
    requires AgreeOnCore(v, u) && Throughout(v, ws, Safe)
    ensures Throughout(u, ws, Safe)
    decreases |ws|
  {
    assert Safe(u);
    if ws != [] {
      SafeReadsCoreOnly(Perform(v, ws[0]), Perform(u, ws[0]), ws[1..]);
    }
  }

  lemma StepKeepsSafe(s: State, e: Event)
    requires Throughout(s.disk, s.todo, Safe) && LeavesEntry(s, e)
    ensures Throughout(Step(s, e).disk, Step(s, e).todo, Safe)
  {
    hide Advance, ApplyPlan;
    match e
    case Begin(r, w) =>
      if s.todo == [] {
        ApplyKeepsSafe(s.disk, r, w);
      }
    case Proceed(links) =>
    case PowerLoss =>
    case Start =>
    case Look(i, saving) =>
      LookLeaves(s, e);
      SafeReadsCoreOnly(s.disk, Step(s, e).disk, s.todo);
    case Tamper(change) =>
      SafeReadsCoreOnly(s.disk, Step(s, e).disk, s.todo);
  }

  lemma {:induction false} RunKeepsSafe(s: State, events: seq<Event>)
    requires Throughout(s.disk, s.todo, Safe) && Always(s, events, LeavesEntry)
    ensures Throughout(Run(s, events).disk, Run(s, events).todo, Safe)
    decreases |events|
  {
    hide Safe, Step, LeavesEntry;
    if events != [] {
      StepKeepsSafe(s, events[0]);
      RunKeepsSafe(Step(s, events[0]), events[1..]);
    }
  }

  /** The whole crash invariant, with the bytes of the entry, holds at every moment of
      every run in which nobody overwrites the entry: in the middle of an installation,
      after any power loss, and whatever else happens to staged releases. */
  lemma EveryMomentIsSafe(s: State, events: seq<Event>)
    requires Initial(s) && Always(s, events, LeavesEntry)
    ensures Safe(Run(s, events).disk)
  {
    RunKeepsSafe(s, events);
  }

  /** What changing staged releases does to the crash invariant: it survives exactly when
      the entry still holds an image that the record, or without one the selector,
      allows. With no record that means unchanged bytes. */
  lemma TamperKeepsSafeExactly(s: State, e: Event)
    requires Safe(s.disk) && e.Tamper?
    ensures
      var after := Step(s, e).disk;
      && Ordered(after) && (Safe(after) <==> EntryFits(after))
      && (ReadPending(s.disk).Absent? ==> (Safe(after) <==> LeavesEntry(s, e)))
      && (LeavesEntry(s, e) ==> Safe(after))
  {
    var after := Step(s, e).disk;
    assert ReadActive(after) == ReadActive(s.disk) && ReadPending(after) == ReadPending(s.disk);
    assert Entry in s.disk <==> Entry in after;
    SafeIsBoth(s.disk);
    SafeIsBoth(after);
  }

  /** Who overwrites the entry: a change in place of a staged release or an older build
      that is the same file, to other bytes. */
  lemma OverwritesExactly(s: State, e: Event)
    requires e.Tamper? && Entry in s.disk
    ensures !LeavesEntry(s, e) <==>
              && e.change.Rewrite? && Staged(e.change.path) && e.change.path in s.disk
              && OneFile(s, e.change.path, Entry) && e.change.content != s.disk[Entry]
  {
  }

  // ----- Complete releases -----

  lemma StockedReadsRest(v: Volume, u: Volume)
    requires AgreeOnRest(v, u) && Stocked(v)
    ensures Stocked(u)
  {
    hide Stocked;
    assert SlotsKept(v, u);
    StockedKept(v, u);
  }

  lemma PerformKeepsRest(v: Volume, u: Volume, w: Write)
    requires AgreeOnRest(v, u)
    ensures AgreeOnRest(Perform(v, w), Perform(u, w))
  {
  }

  lemma {:induction false} StockedIgnoresReceipt(v: Volume, u: Volume, ws: seq<Write>)
    requires AgreeOnRest(v, u) && Throughout(v, ws, Stocked)
    ensures Throughout(u, ws, Stocked)
    decreases |ws|
  {
    hide AgreeOnRest, Stocked, Perform;
    StockedReadsRest(v, u);
    if ws != [] {
      PerformKeepsRest(v, u, ws[0]);
      StockedIgnoresReceipt(Perform(v, ws[0]), Perform(u, ws[0]), ws[1..]);
    }
  }

  lemma StepKeepsStocked(s: State, e: Event)
    requires Throughout(s.disk, s.todo, Safe) && Throughout(s.disk, s.todo, Stocked) && !e.Tamper?
    ensures Throughout(Step(s, e).disk, Step(s, e).todo, Stocked)
  {
    hide Advance, ApplyPlan, Safe;
    match e
    case Begin(r, w) =>
      if s.todo == [] {
        ApplyKeepsStocked(s.disk, r, w);
      }
    case Proceed(links) =>
    case PowerLoss =>
    case Start =>
    case Look(i, saving) =>
      LookLeaves(s, e);
      StockedIgnoresReceipt(s.disk, Step(s, e).disk, s.todo);
  }

  lemma {:induction false} RunKeepsStocked(s: State, events: seq<Event>)
    requires Throughout(s.disk, s.todo, Safe) && Throughout(s.disk, s.todo, Stocked) && Always(s, events, NoTamper)
    ensures Throughout(Run(s, events).disk, Run(s, events).todo, Stocked)
    ensures Throughout(Run(s, events).disk, Run(s, events).todo, Safe)
    decreases |events|
  {
    hide Safe, Stocked, Step;
    if events != [] {
      StepKeepsSafe(s, events[0]);
      StepKeepsStocked(s, events[0]);
      RunKeepsStocked(Step(s, events[0]), events[1..]);
    }
  }
}
