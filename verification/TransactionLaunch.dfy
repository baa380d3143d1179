/** One launch of the public entry, read by read: `run_in_place`, then `dispatch`.
    Others may change the volume between any two reads. A launch starts once it has
    found its own path; `image` is the program that was loaded from there. */
module TransactionLaunch {
  import opened Outcome
  import opened Package
  import opened Transaction
  import opened TransactionReceipt

  /** Where a launch stands. One that stays in place has proved an entry itself, or has
      matched the receipt of another that did. */
  datatype Launch =
    | Started(image: Content)
    | Chosen(image: Content, selection: Selection)
    | Stamped(image: Content, selection: Selection, stamped: Content)
    | Doubted(image: Content, selection: Selection, stamped: Content)
    | Proven(image: Content, selection: Selection, stamped: Content, proved: Content)
    | Falling(image: Content)
    | Picked(image: Content, selection: Selection)
    | InPlace(image: Content, selection: Selection, stamped: Content, proof: Option<Content>)
    | Child(image: Content, selection: Selection, child: Content)
    | Failed(image: Content, fault: Fault)

  predicate Over(l: Launch) {
    l.InPlace? || l.Child? || l.Failed?
  }

  /** What the selector says to a launch. */
  function Selected(v: Volume): Result<Selection, Fault> {
    var active := ReadActive(v);
    if active.Absent? then Err(NothingInstalled)
    else if active.Corrupt? then Err(IntegrityMismatch)
    else if !Valid(active.value) then Err(InvalidSelection)
    else Ok(active.value)
  }

  /** What becomes of a receipt for now: launches share one temporary, and one of them may
      rename what another has only begun to write. */
  datatype Saving = Kept | Lost | Cut(written: nat)

  /** The next read or write of a launch. */
  function Advance(v: Volume, l: Launch, saving: Saving): (Launch, seq<Write>) {
    match l
    case Started(image) =>
      var s := Selected(v);
      if s.Err? then (Failed(image, s.error), [])
      else if s.value.current != s.value.dispatcher then (Falling(image), [])
      else (Chosen(image, s.value), [])
    case Chosen(image, s) =>
      if Entry !in v then (Failed(image, MissingEntry), []) else (Stamped(image, s, v[Entry]), [])
    case Stamped(image, s, stamped) =>
      if Receipt in v && v[Receipt] == StampDoc(s.current, stamped) then (InPlace(image, s, stamped, None), [])
      else (Doubted(image, s, stamped), [])
    case Doubted(image, s, stamped) =>
      if !Opens(Directory(v, s.current), s.current) then (Failed(image, Unverified), [])
      else if Entry in v && ImageOf(s.current, v[Entry]) then (Proven(image, s, stamped, v[Entry]), [])
      else (Falling(image), [])
    case Proven(image, s, stamped, proved) =>
      var receipt := StampDoc(s.current, stamped);
      var done := InPlace(image, s, stamped, Some(proved));
      (match saving
       case Kept => (done, [Put(Receipt, receipt)])
       case Lost => (done, [])
       case Cut(written) => (l, [Put(Receipt, Torn(receipt, written))]))
    case Falling(image) =>
      var s := Selected(v);
      if s.Err? then (Failed(image, s.error), []) else (Picked(image, s.value), [])
    case Picked(image, s) =>
      var files := Directory(v, s.current);
      if Opens(files, s.current) && Pinned(files, s.current) then (Child(image, s, files[Executable]), [])
      else (Failed(image, Unverified), [])
    case _ => (l, [])
  }

  /** The program that runs as the product, or why none does. */
  function Product(l: Launch): Result<Content, Fault>
    requires Over(l)
  {
    match l
    case InPlace(image, _, _, _) => Ok(image)
    case Child(_, _, child) => Ok(child)
    case Failed(_, fault) => Err(fault)
  }

  // ----- What a launch knows -----

  /** What was proved of the files a launch has read. */
  predicate Backed(l: Launch) {
    match l
    case Proven(_, s, _, proved) => ImageOf(s.current, proved)
    case InPlace(_, s, _, proof) => proof.Some? ==> ImageOf(s.current, proof.value)
    case Child(_, s, child) => ImageOf(s.current, child)
    case _ => true
  }

  lemma AdvanceIsBacked(v: Volume, l: Launch, saving: Saving)
    requires Backed(l)
    ensures Backed(Advance(v, l, saving).0)
  {
  }

  /** The launch proved an entry. */
  predicate Proves(l: Launch) {
    l.InPlace? && l.proof.Some?
  }

  /** The launch relies on the proof of `p`: its own, or the one whose receipt it matched. */
  predicate StandsOn(l: Launch, p: Launch)
    requires l.InPlace?
  {
    && Proves(p) && p.selection.current == l.selection.current && p.stamped == l.stamped
    && (l.proof.Some? ==> p.proof == l.proof)
  }

  /** A launch that starts the selected release as a child runs its admitted image. One
      that stays in place does so exactly when the program that was loaded is the entry
      that was proved, by itself or by the launch whose receipt it matched. */
  lemma ProductExactly(l: Launch, p: Launch)
    requires Backed(l) && Backed(p) && (l.Child? || (l.InPlace? && StandsOn(l, p)))
    ensures ImageOf(l.selection.current, Product(l).value) <==> l.Child? || l.image == p.proof.value
  {
  }

  /** The receipt a launch leaves is true exactly when the entry it stamped is still the
      entry it proved. */
  lemma ReceiptTrueExactly(v: Volume, l: Launch)
    requires l.Proven? && Backed(l)
    ensures ReceiptTrue(Replay(v, Advance(v, l, Kept).1)) <==> l.stamped == l.proved
  {
    var w := Put(Receipt, StampDoc(l.selection.current, l.stamped));
    assert Advance(v, l, Kept).1 == [w];
    assert [w][1..] == [];
    assert Replay(v, [w]) == Perform(v, w);
  }

  /** A launch writes nothing but a receipt. */
  lemma AdvanceWrites(v: Volume, l: Launch, saving: Saving)
    ensures forall p :: p != Receipt ==>
      var u := Replay(v, Advance(v, l, saving).1);
      (p in v <==> p in u) && (p in v ==> v[p] == u[p])
  {
    hide Opens, Pinned, Directory, ImageOf;
    var writes := Advance(v, l, saving).1;
    if writes != [] {
      assert writes[1..] == [];
      assert Replay(v, writes) == Perform(v, writes[0]);
    }
  }

  // ----- A launch that nothing disturbs -----

  /** Some steps of a launch with nothing in between. */
  function Alone(v: Volume, l: Launch, n: nat): (Launch, Volume)
    decreases n
  {
    if n == 0 then (l, v)
    else
      var (next, writes) := Advance(v, l, Kept);
      Alone(Replay(v, writes), next, n - 1)
  }

  lemma AloneStep(v: Volume, l: Launch, n: nat)
    requires n > 0
    ensures Alone(v, l, n) == Alone(Replay(v, Advance(v, l, Kept).1), Advance(v, l, Kept).0, n - 1)
  {
  }

  lemma AloneIdle(v: Volume, l: Launch, n: nat)
    requires n > 0 && Advance(v, l, Kept).1 == []
    ensures Alone(v, l, n) == Alone(v, Advance(v, l, Kept).0, n - 1)
  {
  }

  lemma {:induction false} AloneOver(v: Volume, l: Launch, n: nat)
    requires Over(l)
    ensures Alone(v, l, n) == (l, v)
    decreases n
  {
    if n > 0 {
      AloneOver(v, l, n - 1);
    }
  }

  /** Read without interruption, the steps of a launch are the launch plan: they end
      within eight reads with its result, and leave what it leaves. */
  lemma UndisturbedLaunch(v: Volume)
    requires Entry in v
    ensures
      var (l, u) := Alone(v, Started(v[Entry]), 8);
      Over(l) && Product(l) == LaunchPlan(v).result && u == Replay(v, LaunchPlan(v).writes)
  {
    hide Alone, Opens, Pinned, Directory, ImageOf, Replay;
    var image := v[Entry];
    NoWrites(v);
    AloneIdle(v, Started(image), 8);
    var s := Selected(v);
    if s.Err? {
      AloneOver(v, Failed(image, s.error), 7);
    } else if s.value.current != s.value.dispatcher {
      FallThrough(v, image, s.value, 7);
    } else {
      AloneIdle(v, Chosen(image, s.value), 7);
      AloneIdle(v, Stamped(image, s.value, image), 6);
      if Receipt in v && v[Receipt] == StampDoc(s.value.current, image) {
        AloneOver(v, InPlace(image, s.value, image, None), 5);
      } else {
        AloneIdle(v, Doubted(image, s.value, image), 5);
        if !Opens(Directory(v, s.value.current), s.value.current) {
          AloneOver(v, Failed(image, Unverified), 4);
        } else if ImageOf(s.value.current, image) {
          AloneStep(v, Proven(image, s.value, image, image), 4);
          AloneOver(Replay(v, Advance(v, Proven(image, s.value, image, image), Kept).1),
                    InPlace(image, s.value, image, Some(image)), 3);
        } else {
          FallThrough(v, image, s.value, 4);
        }
      }
    }
  }

  lemma NoWrites(v: Volume)
    ensures Replay(v, []) == v
  {
  }

  lemma FallThrough(v: Volume, image: Content, s: Selection, n: nat)
    requires n >= 2 && Selected(v) == Ok(s)
    ensures
      var files := Directory(v, s.current);
      Alone(v, Falling(image), n) ==
        (if Opens(files, s.current) && Pinned(files, s.current) then Child(image, s, files[Executable])
         else Failed(image, Unverified), v)
  {
    hide Alone, Opens, Pinned, Directory, Replay;
    NoWrites(v);
    AloneIdle(v, Falling(image), n);
    AloneIdle(v, Picked(image, s), n - 1);
    AloneOver(v, Advance(v, Picked(image, s), Kept).0, n - 2);
  }
}
