/** The installer itself, one file operation at a time (`transaction.rs`,
    `package.rs`). Power can fail between any two operations. Every method is
    proved to carry out its plan: completely, or up to some durable write. */
module Machine {
  import opened Outcome
  import opened Package
  import opened Transaction

  /** What readers see: temporaries are never looked at. */
  function Published(files: Volume): Volume {
    map p | p in files && !p.Temp? :: files[p]
  }

  lemma TemporariesAreUnseen(files: Volume, p: Path, c: Content)
    ensures Published(files[Temp(p) := c]) == Published(files)
    ensures Published(files - {Temp(p)}) == Published(files)
  {
    assert Published(files[Temp(p) := c]) == Published(files);
  }

  lemma SlotSeen(files: Volume, id: Id, n: Name)
    requires n in Directory(Published(files), id)
    ensures Slot(id, n) in files && Directory(Published(files), id)[n] == files[Slot(id, n)]
  {
  }

  /** Renaming the temporary of `p` onto `p`, whatever the temporary replaced. */
  lemma RenamePublishes(before: Volume, now: Volume, p: Path, c: Content)
    requires !p.Temp? && now - {Temp(p)} == before - {Temp(p)}
    ensures now[p := c] - {Temp(p)} == before[p := c] - {Temp(p)}
    ensures Published(now[p := c] - {Temp(p)}) == Published(before)[p := c]
  {
    var renamed := now[p := c] - {Temp(p)};
    forall q | q != p && q != Temp(p)
      ensures q in now <==> q in before
      ensures q in now ==> now[q] == before[q]
    {
      assert q in now - {Temp(p)} <==> q in before - {Temp(p)};
      if q in now {
        assert now[q] == (now - {Temp(p)})[q] == (before - {Temp(p)})[q];
      }
    }
    assert renamed == before[p := c] - {Temp(p)};
    assert Published(renamed) == Published(before)[p := c];
  }

  lemma {:induction false} MissingIsSeen(files: Volume, source: Source, names: seq<Name>)
    requires forall n :: n in names ==> n in source.files
    ensures Missing(files, source, names) == Missing(Published(files), source, names)
    decreases |names|
  {
    if names != [] {
      MissingIsSeen(files, source, names[1..]);
    }
  }

  lemma MissingStep(v: Volume, source: Source, names: seq<Name>, i: nat)
    requires i < |names|
    requires forall n :: n in names ==> n in source.files
    ensures Missing(v, source, names[i..])
         == (if Slot(source.release, names[i]) in v then []
              else [Put(Slot(source.release, names[i]), source.files[names[i]])])
            + Missing(v, source, names[i + 1..])
  {
    assert names[i..][0] == names[i] && names[i..][1..] == names[i + 1..];
    var rest := Missing(v, source, names[i + 1..]);
    assert [] + rest == rest;
  }

  lemma StandingIsBuilt(files: Volume, source: Source)
    requires Slot(source.release, Executable) in files
    ensures !Misbuilt(files, source)
  {
  }

  lemma MisbuiltIsSeen(files: Volume, source: Source)
    ensures Misbuilt(files, source) <==> Misbuilt(Published(files), source)
  {
  }

  lemma MissingNone(v: Volume, source: Source, names: seq<Name>)
    requires forall n :: n in names ==> n in source.files
    ensures Missing(v, source, names[|names|..]) == []
  {
  }

  datatype Ended<+T> = PowerLost | Ended(result: Result<T, Fault>)

  /** From `before` to `now` the log grew by the plan's writes: all of them, with
      the plan's result, or a prefix when the power was lost. */
  ghost predicate CarriedOut<T>(before: seq<Write>, now: seq<Write>, plan: Plan<T>, e: Ended<T>) {
    if e.PowerLost? then before <= now && now <= before + plan.writes
    else now == before + plan.writes && e.result == plan.result
  }

  /** Whatever a run of the machine leaves is one of the crash points of its plan. */
  lemma EveryRunIsACrashPoint<T>(start: Volume, before: seq<Write>, now: seq<Write>, plan: Plan<T>, e: Ended<T>)
      returns (k: nat)
    requires CarriedOut(before, now, plan, e)
    ensures k <= |plan.writes| && (e.Ended? ==> k == |plan.writes|)
    ensures Replay(start, now) == Replay(Replay(start, before), plan.writes[..k])
  {
    k := |now| - |before|;
    assert now == before + plan.writes[..k];
    ReplayConcat(start, before, plan.writes[..k]);
  }

  class Installation {
    var files: Volume
    /** File operations left before the power fails. */
    var power: nat
    /** How much of a file is written when the write is cut short. */
    var tear: nat
    /** Whether the file system can link a release into the entry directory. */
    var links: bool
    /** The release whose staged executable is the same file as the entry. */
    var linked: Option<Id>

    ghost var start: Volume
    ghost var log: seq<Write>

    ghost predicate Valid()
      reads this
    {
      Published(files) == Replay(start, log) && Shared()
    }

    /** One file has one content: the installer never writes into a file that has two
        names. */
    ghost predicate Shared()
      reads this
    {
      linked.Some? ==>
        && Entry in files && Slot(linked.value, Executable) in files
        && files[Entry] == files[Slot(linked.value, Executable)]
    }

    /** Writing `p` leaves both names of the entry alone. */
    predicate Apart(p: Path)
      reads this
    {
      p != Entry && (linked.Some? ==> p != Slot(linked.value, Executable))
    }

    constructor (files: Volume, power: nat, tear: nat, links: bool, linked: Option<Id>)
      requires linked.Some? ==>
        && Entry in files && Slot(linked.value, Executable) in files
        && files[Entry] == files[Slot(linked.value, Executable)]
      ensures Valid() && start == Published(files) && log == []
      ensures this.files == files && this.power == power
    {
      this.files, this.power, this.tear, this.links, this.linked := files, power, tear, links, linked;
      start, log := Published(files), [];
    }

    /** Spend one unit of power; false when there is none left. */
    method Tick() returns (alive: bool)
      modifies `power
      ensures alive == (old(power) > 0)
      ensures power == if alive then old(power) - 1 else old(power)
    {
      alive := power > 0;
      if alive {
        power := power - 1;
      }
    }

    ghost method Record(w: Write, before: Volume)
      requires Published(before) == Replay(start, log)
      requires Published(files) == Perform(Published(before), w)
      requires Shared()
      modifies `log
      ensures Valid() && log == old(log) + [w]
    {
      ReplayConcat(start, log, [w]);
      assert [w][1..] == [];
      log := log + [w];
    }

    /** Replace the content of `p` through its temporary. Whatever the power
        loss, `p` holds its old bytes or all of `c`, nothing else but the
        temporary is touched, and a stale temporary never blocks the attempt. */
    method AtomicFile(p: Path, c: Content) returns (alive: bool)
      requires Valid() && !p.Temp? && Apart(p)
      modifies `files, `power, `log
      ensures Valid()
      ensures log == old(log) + if alive then [Put(p, c)] else []
      ensures alive ==> files == old(files)[p := c] - {Temp(p)}
      ensures !alive ==> files - {Temp(p)} == old(files) - {Temp(p)}
      ensures old(power) >= 5 ==> alive
    {
      hide Published, Replay;
      alive := DropTemporary(p);
      if !alive { return; }
      alive := WriteTemporary(p, c);
      if !alive { return; }
      RenamePublishes(old(files), files, p, c);
      alive := Publish(p, c);
    }

    /** Remove what an earlier attempt left in the temporary of `p`. */
    method DropTemporary(p: Path) returns (alive: bool)
      requires Valid()
      modifies `files, `power
      ensures Valid()
      ensures files == if alive then old(files) - {Temp(p)} else old(files)
      ensures old(power) >= 1 ==> alive && power >= old(power) - 1
    {
      hide Published, Replay;
      alive := true;
      if Temp(p) in files {
        alive := Tick();
        if !alive { return; }
        TemporariesAreUnseen(files, p, files[Temp(p)]);
        files := files - {Temp(p)};
      }
    }

    /** Rename the temporary of `p` onto `p`. */
    method Publish(p: Path, c: Content) returns (alive: bool)
      requires Valid() && !p.Temp? && Apart(p)
      requires Temp(p) in files && files[Temp(p)] == c
      modifies `files, `power, `log
      ensures Valid()
      ensures log == old(log) + if alive then [Put(p, c)] else []
      ensures files == if alive then old(files)[p := c] - {Temp(p)} else old(files)
      ensures old(power) >= 1 ==> alive
    {
      hide Published, Replay;
      alive := Tick();
      if !alive { return; }
      RenamePublishes(files, files, p, c);
      ghost var written := files;
      files := files[p := c] - {Temp(p)};
      Record(Put(p, c), written);
    }

    /** Create the temporary of `p` and fill it. */
    method WriteTemporary(p: Path, c: Content) returns (alive: bool)
      requires Valid()
      modifies `files, `power
      ensures Valid()
      ensures files - {Temp(p)} == old(files) - {Temp(p)}
      ensures alive ==> files == old(files)[Temp(p) := c]
      ensures old(power) >= 3 ==> alive && power == old(power) - 3
    {
      hide Published, Replay;
      alive := Tick();
      if !alive { return; }
      TemporariesAreUnseen(files, p, Torn(c, 0));
      files := files[Temp(p) := Torn(c, 0)];
      alive := Tick();
      if !alive { return; }
      TemporariesAreUnseen(files, p, Torn(c, tear));
      files := files[Temp(p) := Torn(c, tear)];
      alive := Tick();
      if !alive { return; }
      TemporariesAreUnseen(files, p, c);
      files := files[Temp(p) := c];
    }

    /** Remove a published file. */
    method Remove(p: Path) returns (alive: bool)
      requires Valid() && !p.Temp? && Apart(p)
      modifies `files, `power, `log
      ensures Valid()
      ensures log == old(log) + if alive then [Drop(p)] else []
    {
      alive := Tick();
      if !alive { return; }
      ghost var before := files;
      files := files - {p};
      assert Published(files) == Published(before) - {p};
      Record(Drop(p), before);
    }

    /** `link_or_copy`, onto the temporary of `p`. */
    method LinkOrCopy(p: Path, c: Content) returns (alive: bool)
      requires Valid()
      modifies `files, `power
      ensures Valid()
      ensures files - {Temp(p)} == old(files) - {Temp(p)}
      ensures alive ==> files == old(files)[Temp(p) := c]
    {
      hide Published, Replay;
      if links {
        alive := Tick();
        if !alive { return; }
        TemporariesAreUnseen(files, p, c);
        files := files[Temp(p) := c];
      } else {
        alive := WriteTemporary(p, c);
      }
    }

    /** Fetch one file of a release that its directory lacks: the executable from where an
        older layout kept it, if it did, and anything else from the package. */
    method Fetch(source: Source, name: Name) returns (e: Ended<()>)
      requires Valid() && Qualified(source) && name in source.files && Slot(source.release, name) !in files
      modifies `files, `power, `log
      ensures Valid()
      ensures
        var to := Slot(source.release, name);
        if e.PowerLost? then files - {Temp(to)} == old(files) - {Temp(to)} && log == old(log)
        else if name == Executable && Misbuilt(old(files), source) then
          e == Ended(Err(Unverified)) && log == old(log)
        else
          && e == Ended(Ok(()))
          && files == old(files)[to := source.files[name]] - {Temp(to)}
          && log == old(log) + [Put(to, source.files[name])]
    {
      hide Published, Replay;
      var to, build := Slot(source.release, name), Build(source.release.of.artifact);
      var c := source.files[name];
      if name != Executable || build !in files {
        var alive := AtomicFile(to, c);
        return if alive then Ended(Ok(())) else PowerLost;
      }
      var alive := DropTemporary(to);
      if !alive { return PowerLost; }
      if !ImageOf(source.release, files[build]) {
        return Ended(Err(Unverified));
      }
      alive := LinkOrCopy(to, files[build]);
      if !alive { return PowerLost; }
      alive := Publish(to, c);
      if !alive { return PowerLost; }
      RenamePublishes(old(files), old(files)[Temp(to) := c], to, c);
      return Ended(Ok(()));
    }

    /** Fetch the named files that the release directory still lacks. */
    method CopyMissing(source: Source, names: seq<Name>) returns (e: Ended<()>)
      requires Valid() && Qualified(source)
      requires forall n :: n in names ==> n in source.files
      requires forall i, j :: 0 <= i < j < |names| ==> names[i] != names[j]
      requires names != [] && names[0] == Executable
      modifies `files, `power, `log
      ensures Valid()
      ensures
        CarriedOut(old(log), log,
                   if Misbuilt(old(files), source) then Plan([], Err(Unverified))
                   else Plan(Missing(old(files), source, names), Ok(())), e)
    {
      hide Published, Missing, Replay, Qualified, Misbuilt;
      ghost var copies := Missing(files, source, names);
      ghost var done: seq<Write> := [];
      var i := 0;
      assert names[0..] == names;
      while i < |names|
        invariant 0 <= i <= |names|
        invariant Valid()
        invariant log == old(log) + done
        invariant i == 0 ==> files == old(files) && done == []
        invariant i > 0 ==> !Misbuilt(old(files), source)
        invariant done + Missing(old(files), source, names[i..]) == copies
        invariant forall j :: i <= j < |names| ==>
                    (Slot(source.release, names[j]) in files <==> Slot(source.release, names[j]) in old(files))
      {
        var to := Slot(source.release, names[i]);
        MissingStep(old(files), source, names, i);
        if to !in files {
          var fetched := Fetch(source, names[i]);
          if fetched.PowerLost? { return PowerLost; }
          if fetched.result.Err? { return fetched; }
          done := done + [Put(to, source.files[names[i]])];
        } else if i == 0 {
          StandingIsBuilt(files, source);
        }
        i := i + 1;
      }
      MissingNone(old(files), source, names);
      return Ended(Ok(()));
    }

    /** `Package::stage`. */
    method Stage(source: Source) returns (e: Ended<Id>)
      requires Valid()
      modifies `files, `power, `log
      ensures Valid()
      ensures CarriedOut(old(log), log, StagePlan(Published(old(files)), source), e)
    {
      hide Verified, Qualified, Published;
      ghost var v := Published(files);
      if !Qualified(source) {
        return Ended(Err(Unverified));
      }
      QualifiedHasFiles(source);
      MissingIsSeen(files, source, STAGED);
      MisbuiltIsSeen(files, source);
      var copied := CopyMissing(source, STAGED);
      if copied.PowerLost? {
        return PowerLost;
      }
      if copied.result.Err? {
        return Ended(Err(copied.result.error));
      }
      Landed(old(log), v, Missing(v, source, STAGED));
      if !Verified(Published(files), source.release) {
        return Ended(Err(Unverified));
      }
      return Ended(Ok(source.release));
    }

    /** `bootstrap`: put the dispatcher of `after` in place. */
    method Bootstrap(from: Option<Id>, after: Selection) returns (e: Ended<()>)
      requires Valid()
      modifies `files, `power, `log, `linked
      ensures Valid()
      ensures CarriedOut(old(log), log, BootstrapPlan(Published(old(files)), from, after), e)
      ensures linked == (if log == old(log) then old(linked) else if links then Some(after.dispatcher) else None)
    {
      hide Directory, Published, Replay;
      var v := Published(files);
      var target := after.dispatcher;
      var release := Directory(v, target);
      if !Opens(release, target) || !Pinned(release, target) {
        return Ended(Err(Unverified));
      }
      if Entry in v {
        if ImageOf(target, v[Entry]) {
          return Ended(Ok(()));
        }
        if from == None {
          return Ended(Err(UnrecognizedDispatcher));
        }
        if !(Opens(Directory(v, from.value), from.value) && ImageOf(from.value, v[Entry])) {
          return Ended(Err(Unverified));
        }
      }
      var image := release[Executable];
      var alive := DropTemporary(Entry);
      if !alive { return PowerLost; }
      alive := LinkOrCopy(Entry, image);
      if !alive { return PowerLost; }
      assert ImageOf(target, files[Temp(Entry)]);
      alive := Tick();
      if !alive { return PowerLost; }
      RenamePublishes(files, files, Entry, image);
      ghost var staged := files;
      SlotSeen(files, target, Executable);
      files := files[Entry := files[Temp(Entry)]] - {Temp(Entry)};
      linked := if links then Some(target) else None;
      Record(Put(Entry, image), staged);
      return Ended(Ok(()));
    }

    /** `finish`. */
    method Finish(t: Transition, w: World) returns (e: Ended<()>)
      requires Valid()
      modifies `files, `power, `log, `linked
      ensures Valid()
      ensures CarriedOut(old(log), log, FinishPlan(Published(old(files)), t, w), e)
    {
      hide BootstrapPlan, Published, Startable, ReadActive, Replay, Transaction.Valid;
      var v := Published(files);
      if !Transaction.Valid(t.after) || (t.before.Some? && !Transaction.Valid(t.before.value)) {
        return Ended(Err(InvalidSelection));
      }
      var observed := ReadActive(v);
      if observed.Corrupt? {
        return Ended(Err(IntegrityMismatch));
      }
      if Observed(observed) != t.before && Observed(observed) != Some(t.after) {
        return Ended(Err(ChangedOutside));
      }
      if !Startable(v, t) {
        return Ended(Err(Unverified));
      }
      if t.after.current !in w.healthy {
        return Ended(Err(Unhealthy));
      }
      var boot := Bootstrap(t.fromDispatcher, t.after);
      if boot.PowerLost? {
        return PowerLost;
      }
      if boot.result.Err? {
        return Ended(Err(boot.result.error));
      }
      // A first installation selects before it publishes its first shortcut.
      if observed.Absent? {
        var alive := AtomicFile(Active, SelectionDoc(t.after));
        if !alive { return PowerLost; }
      }
      if !w.registers {
        return Ended(Err(Unregistered));
      }
      if !observed.Absent? {
        var alive := AtomicFile(Active, SelectionDoc(t.after));
        if !alive { return PowerLost; }
      }
      var alive := Remove(Pending);
      if !alive { return PowerLost; }
      return Ended(Ok(()));
    }

    /** Record the transition, then finish it. */
    method Commit(t: Transition, w: World) returns (e: Ended<Selection>)
      requires Valid()
      modifies `files, `power, `log, `linked
      ensures Valid()
      ensures CarriedOut(old(log), log, CommitPlan(Published(old(files)), t, w), e)
    {
      hide FinishPlan;
      ghost var v := Published(files);
      var alive := AtomicFile(Pending, TransitionDoc(t));
      if !alive { return PowerLost; }
      assert Published(files) == Perform(v, Put(Pending, TransitionDoc(t)));
      var rest := Finish(t, w);
      if rest.PowerLost? {
        return PowerLost;
      }
      return Ended(if rest.result.Ok? then Ok(t.after) else Err(rest.result.error));
    }

    /** Stage the package and, on a first installation, its predecessor. */
    method Import(source: Source, predecessor: Option<Source>, first: bool) returns (e: Ended<Option<Id>>)
      requires Valid()
      modifies `files, `power, `log
      ensures Valid()
      ensures CarriedOut(old(log), log, ImportPlan(Published(old(files)), source, predecessor, first), e)
    {
      hide StagePlan, Published;
      ghost var v := Published(files);
      var target := Stage(source);
      if target.PowerLost? {
        return PowerLost;
      }
      if target.result.Err? {
        return Ended(Err(target.result.error));
      }
      if !first || predecessor == None {
        return Ended(Ok(None));
      }
      ghost var added := StagePlan(v, source).writes;
      Landed(old(log), v, added);
      var imported := Stage(predecessor.value);
      if imported.PowerLost? {
        return PowerLost;
      }
      return Ended(if imported.result.Ok? then Ok(Some(imported.result.value)) else Err(imported.result.error));
    }

    lemma Landed(before: seq<Write>, v: Volume, added: seq<Write>)
      requires Valid() && log == before + added
      requires v == Replay(start, before)
      ensures Published(files) == Replay(v, added)
    {
      ReplayConcat(start, before, added);
    }

    /** Check the chosen selection, then record and finish it. */
    method Change(r: Request, before: Option<Selection>, after: Selection, w: World) returns (e: Ended<Selection>)
      requires Valid()
      modifies `files, `power, `log, `linked
      ensures Valid()
      ensures CarriedOut(old(log), log, ChangePlan(Published(old(files)), r, before, after, w), e)
    {
      hide CommitPlan, Published;
      var v := Published(files);
      if !Transaction.Valid(after) {
        return Ended(Err(InvalidSelection));
      }
      if !Meets(after, r.expected) {
        return Ended(Err(DiffersFromTarget));
      }
      if !Verified(v, after.current) {
        return Ended(Err(Unverified));
      }
      if after.current !in w.healthy {
        return Ended(Err(Unhealthy));
      }
      var from := if before == None then None else Some(before.value.dispatcher);
      e := Commit(Transition(Requested(r), from, before, after), w);
    }

    /** `apply` once no transition is pending. */
    method Fresh(r: Request, w: World) returns (e: Ended<Selection>)
      requires Valid()
      modifies `files, `power, `log, `linked
      ensures Valid()
      ensures CarriedOut(old(log), log, FreshPlan(Published(old(files)), r, w), e)
    {
      hide ImportPlan, ChangePlan, Published;
      var v := Published(files);
      var active := ReadActive(v);
      if active.Corrupt? {
        return Ended(Err(IntegrityMismatch));
      }
      var before := Observed(active);
      if before.Some? && !Transaction.Valid(before.value) {
        return Ended(Err(InvalidSelection));
      }
      match r.action
      case Install(source, predecessor) =>
        var stage := Import(source, predecessor, before == None);
        if stage.PowerLost? {
          return PowerLost;
        }
        if stage.result.Err? {
          return Ended(Err(stage.result.error));
        }
        Landed(old(log), v, ImportPlan(v, source, predecessor, before == None).writes);
        e := Change(r, before, InstallTarget(source.release, before, stage.result.value), w);
      case Rollback =>
        if before == None {
          return Ended(Err(NothingInstalled));
        }
        var after := RollbackTarget(v, before.value, r.expected);
        if after.Err? {
          return Ended(Err(after.error));
        }
        e := Change(r, before, after.value, w);
    }

    /** `apply`. */
    method Apply(r: Request, w: World) returns (e: Ended<Selection>)
      requires Valid()
      modifies `files, `power, `log, `linked
      ensures Valid()
      ensures CarriedOut(old(log), log, ApplyPlan(Published(old(files)), r, w), e)
    {
      hide FinishPlan, CommitPlan, FreshPlan, Published;
      var v := Published(files);
      var pending := ReadPending(v);
      if pending.Corrupt? {
        return Ended(Err(IntegrityMismatch));
      }
      if pending.Holding? {
        var t := pending.value;
        // A retried rollback completes its recorded target instead of rolling
        // back once more.
        if Requested(r) == None && t.requested.Some? && t.before.Some? {
          var restore := t.before.value;
          if !Meets(restore, r.expected) {
            return Ended(Err(DiffersFromTarget));
          }
          var active := ReadActive(v);
          if active.Corrupt? {
            return Ended(Err(IntegrityMismatch));
          }
          var current := Observed(active);
          if current != t.before && current != Some(t.after) {
            return Ended(Err(UnknownSelector));
          }
          e := Commit(Transition(None, Some(t.after.dispatcher), current, restore), w);
          return;
        }
        if Requested(r) == t.requested && !Meets(t.after, r.expected) {
          return Ended(Err(DiffersFromTarget));
        }
        var done := Finish(t, w);
        if done.PowerLost? {
          return PowerLost;
        }
        if done.result.Err? {
          return Ended(Err(done.result.error));
        }
        if Requested(r) == t.requested {
          return Ended(Ok(t.after));
        }
        Landed(old(log), v, FinishPlan(v, t, w).writes);
      }
      e := Fresh(r, w);
    }

    /** `run_in_place`, then `dispatch`: the image that runs. A proof receipt that
        cannot be written only costs the next launch another proof. */
    method Launch() returns (image: Result<Content, Fault>)
      requires Valid()
      modifies `files, `power, `log
      ensures Valid()
      ensures image == LaunchPlan(Published(old(files))).result
      ensures log == old(log) || log == old(log) + LaunchPlan(Published(old(files))).writes
    {
      var v := Published(files);
      var active := ReadActive(v);
      if active.Absent? {
        return Err(NothingInstalled);
      }
      if active.Corrupt? {
        return Err(IntegrityMismatch);
      }
      var s := active.value;
      if !Transaction.Valid(s) {
        return Err(InvalidSelection);
      }
      var release := Directory(v, s.current);
      if s.current == s.dispatcher {
        if Entry !in v {
          return Err(MissingEntry);
        }
        var stamp := StampDoc(s.current, v[Entry]);
        if Receipt in v && v[Receipt] == stamp {
          return Ok(v[Entry]);
        }
        if !Opens(release, s.current) {
          return Err(Unverified);
        }
        if ImageOf(s.current, v[Entry]) {
          var _ := AtomicFile(Receipt, stamp);
          return Ok(v[Entry]);
        }
      }
      if !Opens(release, s.current) || !Pinned(release, s.current) {
        return Err(Unverified);
      }
      return Ok(release[Executable]);
    }
  }
}
