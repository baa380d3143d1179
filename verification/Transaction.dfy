/** The installed-release transaction (`transaction.rs`) as the durable writes it
    intends. `Machine` carries these plans out one file operation at a time. */
module Transaction {
  import opened Outcome
  import opened Package

  /** A receipt file: absent, unreadable, or carrying a value. */
  datatype Stored<+T> = Absent | Corrupt | Holding(value: T)

  function ReadActive(v: Volume): Stored<Selection> {
    if Active !in v then Absent
    else if v[Active].SelectionDoc? then Holding(v[Active].selection)
    else Corrupt
  }

  function ReadPending(v: Volume): Stored<Transition> {
    if Pending !in v then Absent
    else if v[Pending].TransitionDoc? then Holding(v[Pending].transition)
    else Corrupt
  }

  function Observed<T>(s: Stored<T>): Option<T>
    requires !s.Corrupt?
  {
    if s.Absent? then None else Some(s.value)
  }

  /** `Selection::validate`. */
  predicate Valid(s: Selection) {
    && s.current.Sha256?
    && s.dispatcher.Sha256?
    && (s.previous.Some? ==> s.previous.value.Sha256? && s.previous.value != s.current)
  }

  /** `Selection::require`. */
  predicate Meets(s: Selection, expected: Option<Id>) {
    expected == None || expected == Some(s.current)
  }

  /** `install-release --id` with its optional predecessor, or `--rollback`. */
  datatype Action = Install(source: Source, predecessor: Option<Source>) | Rollback

  datatype Request = Request(action: Action, expected: Option<Id>)

  function Requested(r: Request): Option<Id> {
    if r.action.Install? then Some(r.action.source.release) else None
  }

  /** The answers of the outside world during one run: which releases pass the
      version probe, and whether the entry point registers. */
  datatype World = World(healthy: set<Id>, registers: bool)

  function BootstrapPlan(v: Volume, from: Option<Id>, after: Selection): Plan<()> {
    var target := after.dispatcher;
    var files := Directory(v, target);
    if !Opens(files, target) || !Pinned(files, target) then Plan([], Err(Unverified))
    else if Entry in v && ImageOf(target, v[Entry]) then Plan([], Ok(()))
    else if Entry in v && from == None then Plan([], Err(UnrecognizedDispatcher))
    else if Entry in v && !(Opens(Directory(v, from.value), from.value) && ImageOf(from.value, v[Entry])) then
      Plan([], Err(Unverified))
    else Plan([Put(Entry, files[Executable])], Ok(()))
  }

  predicate Startable(v: Volume, t: Transition) {
    && Verified(v, t.after.current)
    && (t.after.previous.Some? ==> Verified(v, t.after.previous.value))
  }

  function FinishPlan(v: Volume, t: Transition, w: World): Plan<()> {
    var observed := ReadActive(v);
    if !Valid(t.after) || (t.before.Some? && !Valid(t.before.value)) then Plan([], Err(InvalidSelection))
    else if observed.Corrupt? then Plan([], Err(IntegrityMismatch))
    else if Observed(observed) != t.before && Observed(observed) != Some(t.after) then
      Plan([], Err(ChangedOutside))
    else if !Startable(v, t) then Plan([], Err(Unverified))
    else if t.after.current !in w.healthy then Plan([], Err(Unhealthy))
    else
      var boot := BootstrapPlan(v, t.fromDispatcher, t.after);
      var select := [Put(Active, SelectionDoc(t.after))];
      var first := if observed.Absent? then select else [];
      var second := if observed.Absent? then [] else select;
      if boot.result.Err? then boot
      else if !w.registers then Plan(boot.writes + first, Err(Unregistered))
      else Plan(boot.writes + first + second + [Drop(Pending)], Ok(()))
  }

  /** Record the transition, then finish it. */
  function CommitPlan(v: Volume, t: Transition, w: World): Plan<Selection> {
    var record := Put(Pending, TransitionDoc(t));
    var rest := FinishPlan(Perform(v, record), t, w);
    Plan([record] + rest.writes, if rest.result.Ok? then Ok(t.after) else Err(rest.result.error))
  }

  /** The selection a rollback of `chosen` selects. */
  function RollbackTarget(v: Volume, chosen: Selection, expected: Option<Id>): Result<Selection, Fault> {
    if expected == Some(chosen.current) then Ok(chosen)
    else if chosen.previous == None then Err(NoPredecessor)
    else
      var previous := if Verified(v, chosen.current) then Some(chosen.current) else None;
      Ok(Selection(chosen.previous.value, previous, chosen.dispatcher))
  }

  /** The selection an installation of `target` chooses. */
  function InstallTarget(target: Id, before: Option<Selection>, imported: Option<Id>): Selection {
    var previous :=
      if before == None then imported
      else if before.value.current == target then before.value.previous
      else Some(before.value.current);
    Selection(target, previous, target)
  }

  /** Stage the package and, on a first installation, its predecessor. */
  function ImportPlan(v: Volume, source: Source, predecessor: Option<Source>, first: bool): Plan<Option<Id>> {
    var target := StagePlan(v, source);
    if target.result.Err? then Plan(target.writes, Err(target.result.error))
    else if !first || predecessor == None then Plan(target.writes, Ok(None))
    else
      var imported := StagePlan(Replay(v, target.writes), predecessor.value);
      Plan(target.writes + imported.writes,
           if imported.result.Ok? then Ok(Some(imported.result.value)) else Err(imported.result.error))
  }

  /** Check the chosen selection, then record and finish it. */
  function ChangePlan(v: Volume, r: Request, before: Option<Selection>, after: Selection, w: World): Plan<Selection> {
    if !Valid(after) then Plan([], Err(InvalidSelection))
    else if !Meets(after, r.expected) then Plan([], Err(DiffersFromTarget))
    else if !Verified(v, after.current) then Plan([], Err(Unverified))
    else if after.current !in w.healthy then Plan([], Err(Unhealthy))
    else
      var from := if before == None then None else Some(before.value.dispatcher);
      CommitPlan(v, Transition(Requested(r), from, before, after), w)
  }

  /** `apply` once no transition is pending. */
  function FreshPlan(v: Volume, r: Request, w: World): Plan<Selection> {
    var active := ReadActive(v);
    if active.Corrupt? then Plan([], Err(IntegrityMismatch))
    else
      var before := Observed(active);
      if before.Some? && !Valid(before.value) then Plan([], Err(InvalidSelection))
      else if r.action.Install? then
        var stage := ImportPlan(v, r.action.source, r.action.predecessor, before == None);
        if stage.result.Err? then Plan(stage.writes, Err(stage.result.error))
        else
          var after := InstallTarget(r.action.source.release, before, stage.result.value);
          var change := ChangePlan(Replay(v, stage.writes), r, before, after, w);
          Plan(stage.writes + change.writes, change.result)
      else if before == None then Plan([], Err(NothingInstalled))
      else
        var after := RollbackTarget(v, before.value, r.expected);
        if after.Err? then Plan([], Err(after.error)) else ChangePlan(v, r, before, after.value, w)
  }

  /** A rollback that meets an interrupted activation restores what it replaced. */
  predicate Restores(r: Request, t: Transition) {
    r.action.Rollback? && t.requested.Some? && t.before.Some?
  }

  function RestorePlan(v: Volume, r: Request, t: Transition, w: World): Plan<Selection>
    requires Restores(r, t)
  {
    var active := ReadActive(v);
    if !Meets(t.before.value, r.expected) then Plan([], Err(DiffersFromTarget))
    else if active.Corrupt? then Plan([], Err(IntegrityMismatch))
    else if Observed(active) != t.before && Observed(active) != Some(t.after) then
      Plan([], Err(UnknownSelector))
    else
      CommitPlan(v, Transition(None, Some(t.after.dispatcher), Observed(active), t.before.value), w)
  }

  /** `apply`. */
  function ApplyPlan(v: Volume, r: Request, w: World): Plan<Selection> {
    var pending := ReadPending(v);
    if pending.Corrupt? then Plan([], Err(IntegrityMismatch))
    else if pending.Absent? then FreshPlan(v, r, w)
    else
      var t := pending.value;
      if Restores(r, t) then RestorePlan(v, r, t, w)
      else if Requested(r) == t.requested && !Meets(t.after, r.expected) then Plan([], Err(DiffersFromTarget))
      else
        var done := FinishPlan(v, t, w);
        if done.result.Err? then Plan(done.writes, Err(done.result.error))
        else if Requested(r) == t.requested then Plan(done.writes, Ok(t.after))
        else
          var next := FreshPlan(Replay(v, done.writes), r, w);
          Plan(done.writes + next.writes, next.result)
  }

  // ----- Launching and inspecting the installed product -----

  /** `run_in_place` followed by `dispatch`: the image that runs, and the proof
      receipt that may be left behind. */
  function LaunchPlan(v: Volume): Plan<Content> {
    var active := ReadActive(v);
    if active.Absent? then Plan([], Err(NothingInstalled))
    else if active.Corrupt? then Plan([], Err(IntegrityMismatch))
    else if !Valid(active.value) then Plan([], Err(InvalidSelection))
    else
      var s := active.value;
      var files := Directory(v, s.current);
      var child := if Opens(files, s.current) && Pinned(files, s.current)
                   then Ok(files[Executable]) else Err(Unverified);
      if s.current != s.dispatcher then Plan([], child)
      else if Entry !in v then Plan([], Err(MissingEntry))
      else
        var stamp := StampDoc(s.current, v[Entry]);
        if Receipt in v && v[Receipt] == stamp then Plan([], Ok(v[Entry]))
        else if !Opens(files, s.current) then Plan([], Err(Unverified))
        else if !ImageOf(s.current, v[Entry]) then Plan([], child)
        else Plan([Put(Receipt, stamp)], Ok(v[Entry]))
  }

  /** `--status`; `prints` is the version that running an image prints. */
  function Status(v: Volume, expected: Option<Id>, prints: Content -> string): Result<Selection, Fault> {
    var active := ReadActive(v);
    if active.Absent? then Err(NothingInstalled)
    else if active.Corrupt? then Err(IntegrityMismatch)
    else if !Valid(active.value) then Err(InvalidSelection)
    else if !Meets(active.value, expected) then Err(DiffersFromTarget)
    else
      var s := active.value;
      if !Verified(v, s.current) then Err(Unverified)
      else if Entry !in v || !Opens(Directory(v, s.dispatcher), s.dispatcher) || !ImageOf(s.dispatcher, v[Entry]) then
        Err(Unverified)
      else
        var ran := LaunchPlan(v).result;
        if ran.Err? then Err(ran.error)
        else if prints(ran.value) != prints(Directory(v, s.current)[Executable]) then Err(DifferentVersion)
        else Ok(s)
  }
}
