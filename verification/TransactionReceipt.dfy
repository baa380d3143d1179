/** The proof receipt: launches leave it true when nobody interferes, and requests leave
    it alone. */
module TransactionReceipt {
  import opened Outcome
  import opened Package
  import opened Transaction
  import opened TransactionSafety

  /** A proof receipt never vouches for anything but the release it names. */
  predicate ReceiptTrue(v: Volume) {
    Receipt in v && v[Receipt].StampDoc? ==> ImageOf(v[Receipt].release, v[Receipt].file)
  }

  /** The receipt vouches for the entry, and is wrong. */
  predicate Misled(v: Volume) {
    && ReadActive(v).Holding? && Entry in v && Receipt in v
    && var s := ReadActive(v).value;
      && s.current == s.dispatcher
      && v[Receipt] == StampDoc(s.current, v[Entry]) && !ImageOf(s.current, v[Entry])
  }

  /** Over any receipt, a launch that succeeds runs an image of the selected release
      exactly when it does not take the word of a false receipt. */
  lemma LaunchExactly(v: Volume)
    ensures LaunchPlan(v).result.Ok? ==>
              && ReadActive(v).Holding?
              && (ImageOf(ReadActive(v).value.current, LaunchPlan(v).result.value) <==> !Misled(v))
  {
  }

  lemma LaunchIsHonest(v: Volume)
    requires ReceiptTrue(v)
    ensures
      var p := LaunchPlan(v);
      && (p.result.Ok? ==> ReadActive(v).Holding? && ImageOf(ReadActive(v).value.current, p.result.value))
      && ReceiptTrue(Replay(v, p.writes))
      && (forall q :: q != Receipt ==>
            (q in v <==> q in Replay(v, p.writes)) && (q in v ==> v[q] == Replay(v, p.writes)[q]))
  {
    LaunchExactly(v);
    var p := LaunchPlan(v);
    if p.writes != [] {
      assert p.writes[1..] == [];
    }
  }

  ghost predicate LeavesReceipt(ws: seq<Write>) {
    forall w :: w in ws ==> w.path != Receipt
  }

  lemma FinishLeavesReceipt(v: Volume, t: Transition, w: World)
    ensures LeavesReceipt(FinishPlan(v, t, w).writes)
  {
  }

  lemma ChangeLeavesReceipt(v: Volume, r: Request, before: Option<Selection>, after: Selection, w: World)
    ensures LeavesReceipt(ChangePlan(v, r, before, after, w).writes)
  {
    var t := Transition(Requested(r), Dispatcher(before), before, after);
    FinishLeavesReceipt(Perform(v, Put(Pending, TransitionDoc(t))), t, w);
  }

  lemma FreshLeavesReceipt(v: Volume, r: Request, w: World)
    ensures LeavesReceipt(FreshPlan(v, r, w).writes)
  {
    var active := ReadActive(v);
    if !active.Corrupt? {
      var before := Observed(active);
      if r.action.Install? {
        ImportPutsSlots(v, r.action.source, r.action.predecessor, before == None);
        var stage := ImportPlan(v, r.action.source, r.action.predecessor, before == None);
        if stage.result.Ok? {
          var after := InstallTarget(r.action.source.release, before, stage.result.value);
          ChangeLeavesReceipt(Replay(v, stage.writes), r, before, after, w);
        }
      } else if before.Some? && RollbackTarget(v, before.value, r.expected).Ok? {
        ChangeLeavesReceipt(v, r, before, RollbackTarget(v, before.value, r.expected).value, w);
      }
    }
  }

  lemma ApplyLeavesReceipt(v: Volume, r: Request, w: World)
    ensures LeavesReceipt(ApplyPlan(v, r, w).writes)
  {
    var pending := ReadPending(v);
    if pending.Absent? {
      FreshLeavesReceipt(v, r, w);
    } else if pending.Holding? {
      var t := pending.value;
      if Restores(r, t) {
        if !ReadActive(v).Corrupt? {
          var restored := Transition(None, Some(t.after.dispatcher), Observed(ReadActive(v)), t.before.value);
          FinishLeavesReceipt(Perform(v, Put(Pending, TransitionDoc(restored))), restored, w);
        }
      } else {
        FinishLeavesReceipt(v, t, w);
        var done := FinishPlan(v, t, w);
        if done.result.Ok? {
          FreshLeavesReceipt(Replay(v, done.writes), r, w);
        }
      }
    }
  }
}
