/** Exactly when an installation succeeds. */
module TransactionInstall {
  import opened Outcome
  import opened Package
  import opened Transaction
  import opened TransactionSafety
  import opened TransactionRecovery
  import opened TransactionRuns

  /** Whatever already stands in the release's directory, or in its place in an older
      layout, is the package's own. */
  predicate Unspoiled(v: Volume, source: Source) {
    !Misbuilt(v, source) && forall n :: n in STAGED && n in source.files && Slot(source.release, n) in v ==>
      v[Slot(source.release, n)] == source.files[n]
  }

  /** Staging succeeds exactly for a qualified package whose directory holds nothing
      else under its names. */
  lemma StageSucceedsExactly(v: Volume, source: Source)
    ensures StagePlan(v, source).result.Ok? <==> Qualified(source) && Unspoiled(v, source)
  {
    if Qualified(source) && !Misbuilt(v, source) {
      StageFills(v, source, 0);
      var end := Filled(v, source, STAGED);
      var files := Directory(end, source.release);
      if Unspoiled(v, source) {
        forall n | n in STAGED
          ensures n in files && files[n] == source.files[n]
        {
          assert Slot(source.release, n) in end;
        }
        SameFilesComplete(source, files);
      }
      if Verified(end, source.release) {
        CompleteFilesAgree(source, files);
        forall n | n in STAGED && Slot(source.release, n) in v
          ensures v[Slot(source.release, n)] == source.files[n]
        {
          assert Slot(source.release, n) in end;
          assert files[n] == end[Slot(source.release, n)];
        }
      }
    }
  }

  lemma SameFilesComplete(source: Source, files: map<Name, Content>)
    requires Qualified(source)
    requires forall n :: n in STAGED ==> n in files && n in source.files && files[n] == source.files[n]
    ensures Complete(files, source.release)
  {
    assert ManifestFile in STAGED && Executable in STAGED && Sbom in STAGED;
    assert Notices in STAGED && NativeAudit in STAGED;
  }

  /** A release is determined by its name: two complete copies are the same files. */
  lemma CompleteFilesAgree(source: Source, files: map<Name, Content>)
    requires Qualified(source) && Complete(files, source.release)
    ensures forall n :: n in STAGED ==> n in files && n in source.files && files[n] == source.files[n]
  {
  }

  /** The predecessor that a first installation imports can be staged, and is another
      release. */
  predicate Importable(v: Volume, source: Source, predecessor: Option<Source>) {
    predecessor.Some? ==>
      && Qualified(predecessor.value) && Unspoiled(v, predecessor.value)
      && predecessor.value.release != source.release
  }

  /** With intact releases and a world that answers, an installation succeeds exactly
      when its package is sound, its slot unspoiled, the release the one expected and,
      the first time, the predecessor sound as well. */
  lemma InstallSucceeds(v: Volume, source: Source, predecessor: Option<Source>, expected: Option<Id>, w: World)
    requires Safe(v) && Stocked(v) && ReadPending(v).Absent?
    requires w.registers && source.release in w.healthy
    ensures
      ApplyPlan(v, Request(Install(source, predecessor), expected), w).result.Ok? <==>
        && Qualified(source) && Unspoiled(v, source)
        && (expected == None || expected == Some(source.release))
        && (ReadActive(v).Absent? ==> Importable(v, source, predecessor))
  {
    hide Qualified, Unspoiled, Verified, Safe, Stocked, ChangePlan, StagePlan;
    var r := Request(Install(source, predecessor), expected);
    SafeReads(v);
    var before := Observed(ReadActive(v));
    var stage := ImportPlan(v, source, predecessor, before == None);
    ImportSucceedsExactly(v, source, predecessor, before == None);
    if stage.result.Ok? {
      ImportedChangeSucceeds(v, r, source, predecessor, w);
    }
  }

  lemma SafeReads(v: Volume)
    requires Safe(v)
    ensures !ReadActive(v).Corrupt? && (ReadActive(v).Holding? ==> Valid(ReadActive(v).value))
  {
  }

  lemma ImportSucceedsExactly(v: Volume, source: Source, predecessor: Option<Source>, first: bool)
    ensures
      var p := ImportPlan(v, source, predecessor, first);
      && (p.result.Ok? <==>
            && Qualified(source) && Unspoiled(v, source)
            && (first && predecessor.Some? ==>
                  Qualified(predecessor.value)
                  && Unspoiled(Replay(v, StagePlan(v, source).writes), predecessor.value)))
      && (p.result.Ok? ==>
            p.result.value == (if first && predecessor.Some? then Some(predecessor.value.release) else None))
    ensures predecessor.Some? && Qualified(source) && predecessor.value.release != source.release ==>
              (Unspoiled(Replay(v, StagePlan(v, source).writes), predecessor.value)
               <==> Unspoiled(v, predecessor.value))
  {
    hide Qualified, Unspoiled, Verified;
    StageSucceedsExactly(v, source);
    if predecessor.Some? {
      var v1 := Replay(v, StagePlan(v, source).writes);
      StageSucceedsExactly(v1, predecessor.value);
      if Qualified(source) && predecessor.value.release != source.release {
        OtherSlotsKept(v, source, predecessor.value);
      }
    }
  }

  lemma OtherSlotsKept(v: Volume, source: Source, other: Source)
    requires Qualified(source) && other.release != source.release
    ensures Unspoiled(Replay(v, StagePlan(v, source).writes), other) <==> Unspoiled(v, other)
  {
    hide Qualified, Verified;
    if !Misbuilt(v, source) {
      StageFills(v, source, 0);
      var end := Filled(v, source, STAGED);
      forall p: Path | p.Build? || (p.Slot? && p.id == other.release)
        ensures p in v <==> p in end
        ensures p in v ==> v[p] == end[p]
      {
      }
    }
  }

  /** What is left once everything is staged. */
  lemma ImportedChangeSucceeds(v: Volume, r: Request, source: Source, predecessor: Option<Source>, w: World)
    requires Safe(v) && Stocked(v) && ReadPending(v).Absent?
    requires w.registers && source.release in w.healthy && r.action == Install(source, predecessor)
    requires ImportPlan(v, source, predecessor, ReadActive(v).Absent?).result.Ok?
    ensures !ReadActive(v).Corrupt?
    ensures
      var before := Observed(ReadActive(v));
      var stage := ImportPlan(v, source, predecessor, before == None);
      var after := InstallTarget(source.release, before, stage.result.value);
      ChangePlan(Replay(v, stage.writes), r, before, after, w).result.Ok? <==>
        && (r.expected == None || r.expected == Some(source.release))
        && (before == None && predecessor.Some? ==> predecessor.value.release != source.release)
  {
    hide Qualified, Unspoiled, Verified, FinishPlan, CommitPlan, StagePlan;
    SafeReads(v);
    var before := Observed(ReadActive(v));
    var stage := ImportPlan(v, source, predecessor, before == None);
    var u := Replay(v, stage.writes);
    var after := InstallTarget(source.release, before, stage.result.value);
    ImportSucceedsExactly(v, source, predecessor, before == None);
    ImportKeepsStocked(v, source, predecessor, before == None);
    ImportedReads(v, source, predecessor, before == None);
    TargetVerified(v, u, source, before, stage.result.value);
    VerifiedHasDigest(u, source.release);
    if stage.result.value.Some? {
      VerifiedHasDigest(u, stage.result.value.value);
    }
    if Valid(after) && Meets(after, r.expected) {
      RecordedCompletes(u, Transition(Requested(r), Dispatcher(before), before, after), w);
    }
  }

  lemma VerifiedHasDigest(v: Volume, id: Id)
    requires Verified(v, id)
    ensures id.Sha256?
  {
  }

  lemma ImportedReads(v: Volume, source: Source, predecessor: Option<Source>, first: bool)
    requires Safe(v) && ReadPending(v).Absent?
    ensures
      var u := Replay(v, ImportPlan(v, source, predecessor, first).writes);
      && Safe(u) && ReadActive(u) == ReadActive(v) && ReadPending(u).Absent?
      && (ReadActive(u).Absent? ==> Entry !in u)
      && (ReadActive(u).Holding? ==> EntryIs(u, Some(ReadActive(u).value.dispatcher)))
  {
    hide Qualified, Verified, StagePlan;
    var ws := ImportPlan(v, source, predecessor, first).writes;
    ImportPutsSlots(v, source, predecessor, first);
    SlotPutsKeepReceipts(v, ws);
    SlotPutsKeepSafe(v, ws);
    ThroughoutEnd(v, ws, Safe);
  }

  lemma TargetVerified(v: Volume, u: Volume, source: Source, before: Option<Selection>, imported: Option<Id>)
    requires Stocked(v) && SlotsKept(v, u) && !ReadActive(v).Corrupt? && before == Observed(ReadActive(v))
    requires Verified(u, source.release) && (imported.Some? ==> Verified(u, imported.value))
    ensures AllVerified(u, InstallTarget(source.release, before, imported))
    ensures before.Some? ==> AllVerified(u, before.value)
  {
    hide Verified;
    if before.Some? {
      AllVerifiedKept(v, u, before.value);
    }
  }

  // ----- Requests that meet the record of another -----

  /** The world answers well for everything that a selection names. */
  predicate Healthy(s: Selection, w: World) {
    s.current in w.healthy && (s.previous.Some? ==> s.previous.value in w.healthy)
  }

  /** The world answers well for every release the request may select. */
  predicate Willing(v: Volume, r: Request, w: World) {
    && w.registers
    && (r.action.Install? ==> r.action.source.release in w.healthy)
    && (ReadActive(v).Holding? ==> Healthy(ReadActive(v).value, w))
    && (ReadPending(v).Holding? ==>
          var t := ReadPending(v).value;
          Healthy(t.after, w) && (t.before.Some? ==> Healthy(t.before.value, w)))
  }

  /** What a request needs that finds `chosen` selected. */
  predicate Acceptable(v: Volume, r: Request, chosen: Option<Selection>) {
    match r.action
    case Install(source, predecessor) =>
      && Qualified(source) && Unspoiled(v, source)
      && (r.expected == None || r.expected == Some(source.release))
      && (chosen.None? ==> Importable(v, source, predecessor))
    case Rollback =>
      && chosen.Some?
      && var s := chosen.value;
        || r.expected == Some(s.current)
        || (s.previous.Some? && (r.expected == None || r.expected == s.previous))
  }

  /** What a request needs, whatever record it meets: a rollback restores what the record
      replaced; a request that asks for what is recorded only completes it; any other
      request first completes the record and then finds the recorded selection chosen. */
  predicate Accepted(v: Volume, r: Request)
    requires !ReadActive(v).Corrupt? && !ReadPending(v).Corrupt?
  {
    match ReadPending(v)
    case Absent => Acceptable(v, r, Observed(ReadActive(v)))
    case Holding(t) =>
      if Restores(r, t) then Meets(t.before.value, r.expected)
      else if Requested(r) == t.requested then Meets(t.after, r.expected)
      else Acceptable(v, r, Some(t.after))
  }

  /** With intact releases and a world that answers, every request succeeds exactly when
      it is acceptable, whether or not an earlier one was interrupted. */
  lemma RequestSucceeds(v: Volume, r: Request, w: World)
    requires Safe(v) && Stocked(v) && Willing(v, r, w)
    ensures ApplyPlan(v, r, w).result.Ok? <==> Accepted(v, r)
  {
    hide FinishPlan, FreshPlan, CommitPlan, Stocked, Qualified, Unspoiled, Misbuilt, Importable;
    match ReadPending(v)
    case Absent =>
      FreshSucceeds(v, r, w);
    case Holding(t) =>
      if Restores(r, t) {
        RestoreSucceeds(v, r.expected, w);
      } else {
        PendingAlwaysCompletes(v, w);
        if Requested(r) != t.requested {
          CompletedFirst(v, t, r, w);
          FreshSucceeds(Replay(v, FinishPlan(v, t, w).writes), r, w);
        }
      }
  }

  lemma FreshSucceeds(v: Volume, r: Request, w: World)
    requires Safe(v) && Stocked(v) && Willing(v, r, w) && ReadPending(v).Absent?
    ensures FreshPlan(v, r, w).result.Ok? <==> Acceptable(v, r, Observed(ReadActive(v)))
  {
    hide Stocked, Qualified, Unspoiled, Importable, ImportPlan, ChangePlan;
    match r.action
    case Install(source, predecessor) =>
      InstallSucceeds(v, source, predecessor, r.expected, w);
    case Rollback =>
      if ReadActive(v).Holding? {
        RollbackSucceeds(v, r.expected, w);
      }
  }

  /** What a request finds once the record it met is completed. */
  lemma CompletedFirst(v: Volume, t: Transition, r: Request, w: World)
    requires Safe(v) && Stocked(v) && ReadPending(v) == Holding(t) && Willing(v, r, w)
    requires FinishPlan(v, t, w).result.Ok?
    ensures
      var u := Replay(v, FinishPlan(v, t, w).writes);
      && Safe(u) && Stocked(u) && Willing(u, r, w)
      && ReadPending(u).Absent? && ReadActive(u) == Holding(t.after)
      && (Acceptable(u, r, Some(t.after)) <==> Acceptable(v, r, Some(t.after)))
  {
    hide FinishPlan, Safe, Stocked, Qualified;
    var writes := FinishPlan(v, t, w).writes;
    FinishKeepsSafe(v, t, w);
    ThroughoutEnd(v, writes, Safe);
    FinishKeepsStocked(v, t, w);
    ThroughoutEnd(v, writes, Stocked);
    FinishSettles(v, t, w);
  }
}
