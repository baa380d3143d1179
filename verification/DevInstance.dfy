/** Private instances of development binaries (`allocate_instance` in
    `dev_instance.rs`): every identity gets a port range and a state root of its own,
    whatever crashes. Calls are serialised by the native lock. */
module DevInstance {
  import opened Outcome
  import opened Utf8

  // ----- Names and ports -----

  newtype u16 = x: int | 0 <= x < 0x1_0000

  /** 64-bit FNV-1a. Nothing depends on it being injective. */
  function Hash(identity: Bytes): bv64 {
    if identity == [] then 0xcbf29ce484222325
    else
      var last := |identity| - 1;
      (Hash(identity[..last]) ^ (identity[last] as bv64)) * 0x100000001b3
  }

  /** A directory below `instances`, named after a hash. */
  datatype Root = Root(hash: bv64)

  function Namespace(identity: Bytes): Root {
    Root(Hash(identity))
  }

  const SLOTS: nat := 400

  function Offset(slot: nat): nat {
    1000 + slot * 100
  }

  /** The ports a release listens on without an offset. */
  predicate BasePort(port: nat) {
    9090 <= port <= 9095 || 18080 <= port <= 18084
  }

  /** The ports of different slots differ, and all fit in 16 bits. */
  lemma PortsAreDisjoint(a: nat, b: nat, p: nat, q: nat)
    requires a < SLOTS && b < SLOTS && a != b && BasePort(p) && BasePort(q)
    ensures p + Offset(a) != q + Offset(b)
    ensures p + Offset(a) < 0xFFFF
  {
    var gap := (a as int - b) * 100;
    assert gap % 100 == 0;
    if 9090 <= p <= 9095 && 9090 <= q <= 9095 {
      assert -5 <= q - p <= 5;
    } else if 18080 <= p && 18080 <= q {
      assert -4 <= q - p <= 4;
    }
  }

  // ----- The disk -----

  /** `port-owners`, by slot, and the `owner` files below `instances`, by namespace. */
  datatype Disk = Disk(owners: map<nat, Bytes>, roots: map<Root, Bytes>)

  datatype Instance = Instance(root: Root, slot: nat)

  datatype Problem = Unreadable | Full | Collision | PowerLost

  /** The slot whose owner is the identity, and the lowest free slot. */
  datatype Choice = Choice(existing: Option<nat>, free: Option<nat>)

  function Search(owners: map<nat, Bytes>, identity: Bytes, slot: nat, free: Option<nat>): Result<Choice, Problem>
    requires slot <= SLOTS
    decreases SLOTS - slot
  {
    if slot == SLOTS then Ok(Choice(None, free))
    else if slot !in owners then Search(owners, identity, slot + 1, if free.None? then Some(slot) else free)
    else if !Utf8.Valid(owners[slot]) then Err(Unreadable)
    else if owners[slot] == identity then Ok(Choice(Some(slot), free))
    else Search(owners, identity, slot + 1, free)
  }

  /** A new file with as much of the text as the power lasts for: one unit creates
      the file, and one writes each byte. */
  function Torn(text: Bytes, power: nat): Bytes
    requires power > 0
  {
    text[..Min(power - 1, |text|)]
  }

  /** The slot's owner file, once the root is settled. */
  function Claim(disk: Disk, identity: Bytes, choice: Choice, power: nat): (Disk, Result<Instance, Problem>)
    requires choice.existing.Some? || choice.free.Some?
  {
    var root := Namespace(identity);
    if choice.existing.Some? then (disk, Ok(Instance(root, choice.existing.value)))
    else if power == 0 then (disk, Err(PowerLost))
    else
      var slot := choice.free.value;
      var after := disk.(owners := disk.owners[slot := Torn(identity, power)]);
      (after, if power <= |identity| then Err(PowerLost) else Ok(Instance(root, slot)))
  }

  /** A whole call that stops when its power runs out. */
  function Call(disk: Disk, identity: Bytes, power: nat): (Disk, Result<Instance, Problem>) {
    var found := Search(disk.owners, identity, 0, None);
    if found.Err? then (disk, Err(found.error))
    else if found.value == Choice(None, None) then (disk, Err(Full))
    else
      var root := Namespace(identity);
      if root in disk.roots then
        if !Utf8.Valid(disk.roots[root]) then (disk, Err(Unreadable))
        else if disk.roots[root] != identity then (disk, Err(Collision))
        else Claim(disk, identity, found.value, power)
      else if power == 0 then (disk, Err(PowerLost))
      else
        var after := disk.(roots := disk.roots[root := Torn(identity, power)]);
        if power <= |identity| then (after, Err(PowerLost))
        else Claim(after, identity, found.value, power - 1 - |identity|)
  }

  // ----- The allocator itself -----

  class Allocator {
    var owners: map<nat, Bytes>
    var roots: map<Root, Bytes>

    ghost function Contents(): Disk
      reads this
    {
      Disk(owners, roots)
    }

    constructor ()
      ensures Contents() == Disk(map[], map[])
    {
      owners, roots := map[], map[];
    }

    /** The scan of the 400 slots. */
    method Scan(identity: Bytes) returns (r: Result<(Option<u16>, Option<u16>), Problem>)
      ensures
        match Search(owners, identity, 0, None)
        case Err(e) => r == Err(e)
        case Ok(choice) =>
          && r.Ok?
          && (choice.existing.Some? ==> choice.existing.value < SLOTS)
          && (choice.free.Some? ==> choice.free.value < SLOTS)
          && r.value.0 == Offsets(choice.existing) && r.value.1 == Offsets(choice.free)
    {
      hide Utf8.Valid;
      var free: Option<u16> := None;
      ghost var lowest: Option<nat> := None;
      var slot: u16 := 0;
      while slot < 400
        invariant slot <= 400
        invariant lowest.Some? ==> lowest.value < SLOTS
        invariant free == Offsets(lowest)
        invariant Search(owners, identity, 0, None) == Search(owners, identity, slot as nat, lowest)
      {
        var offset := 1000 + slot * 100;
        if slot as nat in owners {
          if !Utf8.Valid(owners[slot as nat]) {
            return Err(Unreadable);
          }
          if owners[slot as nat] == identity {
            return Ok((Some(offset), free));
          }
        } else if free.None? {
          free := Some(offset);
          lowest := Some(slot as nat);
        }
        slot := slot + 1;
      }
      return Ok((None, free));
    }

    /** Creates a file and writes it while there is power; says what stands there. */
    method Write(text: Bytes, power: nat) returns (content: Bytes, left: nat, whole: bool)
      requires power > 0
      ensures content == Torn(text, power) && (whole <==> power > |text|)
      ensures whole ==> content == text && left == power - 1 - |text|
    {
      left := power - 1;
      content := [];
      while left > 0 && |content| < |text|
        invariant |content| <= |text| && content == text[..|content|]
        invariant left + |content| == power - 1
        decreases left
      {
        content := content + [text[|content|]];
        left := left - 1;
      }
      whole := |content| == |text|;
      assert text[..|text|] == text;
    }

    method Allocate(identity: Bytes, power: nat) returns (r: Result<(Root, u16), Problem>)
      modifies this
      ensures Contents() == Call(old(Contents()), identity, power).0
      ensures
        match Call(old(Contents()), identity, power).1
        case Err(e) => r == Err(e)
        case Ok(i) => i.slot < SLOTS && r == Ok((i.root, Offset(i.slot) as u16))
    {
      hide Utf8.Valid, Search, Namespace, Torn;
      var scanned := Scan(identity);
      if scanned.Err? {
        return Err(scanned.error);
      }
      var (existing, free) := scanned.value;
      if existing.None? && free.None? {
        return Err(Full);
      }
      var offset := if existing.Some? then existing.value else free.value;
      var left := power;
      var root := Namespace(identity);
      if root in roots {
        if !Utf8.Valid(roots[root]) {
          return Err(Unreadable);
        }
        if roots[root] != identity {
          return Err(Collision);
        }
      } else {
        if left == 0 {
          return Err(PowerLost);
        }
        var content, rest, whole := Write(identity, left);
        roots := roots[root := content];
        if !whole {
          return Err(PowerLost);
        }
        left := rest;
      }
      if existing.None? {
        if left == 0 {
          return Err(PowerLost);
        }
        var content, _, whole := Write(identity, left);
        owners := owners[(offset as nat - 1000) / 100 := content];
        if !whole {
          return Err(PowerLost);
        }
      }
      return Ok((root, offset));
    }
  }

  /** The port offset of a slot, as the code holds it. */
  function Offsets(slot: Option<nat>): Option<u16>
    requires slot.Some? ==> slot.value < SLOTS
  {
    if slot.None? then None else Some(Offset(slot.value) as u16)
  }

  // ----- What the search finds -----

  /** `slot` is the lowest whose owner is the identity, and nothing below stops the
      search. */
  predicate OwnedAt(owners: map<nat, Bytes>, identity: Bytes, slot: nat) {
    && slot < SLOTS && slot in owners && owners[slot] == identity && Utf8.Valid(identity)
    && forall j: nat :: j < slot && j in owners ==> Utf8.Valid(owners[j]) && owners[j] != identity
  }

  /** No slot belongs to the identity, and all can be read. */
  predicate Unowned(owners: map<nat, Bytes>, identity: Bytes) {
    forall j: nat :: j < SLOTS && j in owners ==> Utf8.Valid(owners[j]) && owners[j] != identity
  }

  predicate LowestFree(owners: map<nat, Bytes>, slot: nat) {
    slot < SLOTS && slot !in owners && forall j: nat :: j < slot ==> j in owners
  }

  lemma {:induction false} SearchFinds(owners: map<nat, Bytes>, identity: Bytes, slot: nat, free: Option<nat>)
    requires slot <= SLOTS
    requires forall j: nat :: j < slot && j in owners ==> Utf8.Valid(owners[j]) && owners[j] != identity
    requires match free
             case None => forall j: nat :: j < slot ==> j in owners
             case Some(f) => f < slot && LowestFree(owners, f)
    ensures
      match Search(owners, identity, slot, free)
      case Err(e) =>
        e == Unreadable && !Unowned(owners, identity) && forall k: nat :: !OwnedAt(owners, identity, k)
      case Ok(Choice(Some(k), _)) => OwnedAt(owners, identity, k)
      case Ok(Choice(None, Some(f))) => Unowned(owners, identity) && LowestFree(owners, f)
      case Ok(Choice(None, None)) =>
        Unowned(owners, identity) && forall j: nat :: j < SLOTS ==> j in owners
    decreases SLOTS - slot
  {
    hide Utf8.Valid;
    if slot < SLOTS {
      if slot !in owners {
        SearchFinds(owners, identity, slot + 1, if free.None? then Some(slot) else free);
      } else if Utf8.Valid(owners[slot]) && owners[slot] != identity {
        SearchFinds(owners, identity, slot + 1, free);
      }
    }
  }

  // ----- Runs of calls -----

  /** Slots are taken from the lowest up. */
  predicate Dense(disk: Disk) {
    forall j: nat, k: nat :: j < k && k in disk.owners ==> j in disk.owners
  }

  /** Nothing written is ever changed or removed. */
  predicate Extends(before: Disk, after: Disk) {
    && (forall k :: k in before.owners ==> k in after.owners && after.owners[k] == before.owners[k])
    && (forall n :: n in before.roots ==> n in after.roots && after.roots[n] == before.roots[n])
  }

  lemma CallExtends(disk: Disk, identity: Bytes, power: nat)
    requires Dense(disk)
    ensures Dense(Call(disk, identity, power).0) && Extends(disk, Call(disk, identity, power).0)
  {
    hide Utf8.Valid, Search, Namespace, Torn;
    SearchFinds(disk.owners, identity, 0, None);
    var found := Search(disk.owners, identity, 0, None);
    if found.Ok? && found.value.existing.None? && found.value.free.Some? {
      assert LowestFree(disk.owners, found.value.free.value);
    }
  }

  /** The instance is the identity's: its slot and its root name it as their owner. */
  predicate Holds(disk: Disk, identity: Bytes, i: Instance) {
    && OwnedAt(disk.owners, identity, i.slot)
    && i.root == Namespace(identity) && i.root in disk.roots && disk.roots[i.root] == identity
  }

  lemma CallHolds(disk: Disk, identity: Bytes, power: nat)
    requires Dense(disk) && Utf8.Valid(identity)
    ensures
      var (after, r) := Call(disk, identity, power);
      r.Ok? ==> Holds(after, identity, r.value)
  {
    hide Utf8.Valid, Search, Namespace, Torn;
    SearchFinds(disk.owners, identity, 0, None);
    WholeText(identity);
  }

  lemma WholeText(text: Bytes)
    ensures forall power: nat :: power > |text| ==> Torn(text, power) == text
  {
    assert text[..|text|] == text;
  }

  lemma HoldsStays(before: Disk, after: Disk, identity: Bytes, i: Instance)
    requires Dense(before) && Extends(before, after) && Holds(before, identity, i)
    ensures Holds(after, identity, i)
  {
    hide Utf8.Valid, Namespace;
  }

  datatype Request = Request(identity: Bytes, power: nat)

  /** The disk after some calls, from an empty one. */
  function After(calls: seq<Request>): Disk {
    if calls == [] then Disk(map[], map[])
    else
      var last := calls[|calls| - 1];
      Call(After(calls[..|calls| - 1]), last.identity, last.power).0
  }

  /** What call `i` returns. */
  function Answer(calls: seq<Request>, i: nat): Result<Instance, Problem>
    requires i < |calls|
  {
    Call(After(calls[..i]), calls[i].identity, calls[i].power).1
  }

  predicate Named(calls: seq<Request>) {
    forall c :: c in calls ==> Utf8.Valid(c.identity)
  }

  lemma {:induction false} RunIsDense(calls: seq<Request>)
    ensures Dense(After(calls))
    decreases |calls|
  {
    if calls != [] {
      var last := calls[|calls| - 1];
      RunIsDense(calls[..|calls| - 1]);
      CallExtends(After(calls[..|calls| - 1]), last.identity, last.power);
    }
  }

  /** What a call returned is still its identity's after any later calls. */
  lemma {:induction false} AnswerHolds(calls: seq<Request>, i: nat)
    requires Named(calls) && i < |calls| && Answer(calls, i).Ok?
    ensures Holds(After(calls), calls[i].identity, Answer(calls, i).value)
    decreases |calls|
  {
    hide Holds, Utf8.Valid, Dense, Extends, Call;
    var n := |calls| - 1;
    var init, last := calls[..n], calls[n];
    RunIsDense(init);
    if i == n {
      assert calls[i] in calls;
      CallHolds(After(init), last.identity, last.power);
    } else {
      assert init[..i] == calls[..i] && init[i] == calls[i];
      assert forall c :: c in init ==> c in calls;
      AnswerHolds(init, i);
      CallExtends(After(init), last.identity, last.power);
      HoldsStays(After(init), After(calls), calls[i].identity, Answer(calls, i).value);
    }
  }

  /** Over any calls and any crashes: one identity always gets one instance, and two
      identities never share a slot or a root, not even when their namespaces
      collide. */
  lemma InstancesArePrivate(calls: seq<Request>, i: nat, j: nat)
    requires Named(calls) && i < |calls| && j < |calls|
    requires Answer(calls, i).Ok? && Answer(calls, j).Ok?
    ensures
      var a, b := Answer(calls, i).value, Answer(calls, j).value;
      && a.slot < SLOTS && b.slot < SLOTS
      && (if calls[i].identity == calls[j].identity then a == b else a.slot != b.slot && a.root != b.root)
  {
    hide Utf8.Valid, Answer, After, Namespace;
    AnswerHolds(calls, i);
    AnswerHolds(calls, j);
  }

  /** Two identities never listen on one port. */
  lemma PortsArePrivate(calls: seq<Request>, i: nat, j: nat, p: nat, q: nat)
    requires Named(calls) && i < |calls| && j < |calls| && calls[i].identity != calls[j].identity
    requires Answer(calls, i).Ok? && Answer(calls, j).Ok? && BasePort(p) && BasePort(q)
    ensures p + Offset(Answer(calls, i).value.slot) != q + Offset(Answer(calls, j).value.slot)
    ensures p + Offset(Answer(calls, i).value.slot) < 0xFFFF
  {
    hide Answer, Offset, BasePort;
    InstancesArePrivate(calls, i, j);
    PortsAreDisjoint(Answer(calls, i).value.slot, Answer(calls, j).value.slot, p, q);
  }

  // ----- When a call succeeds -----

  /** The power a call needs. */
  function Enough(identity: Bytes): nat {
    2 * (|identity| + 1)
  }

  ghost predicate SlotReady(disk: Disk, identity: Bytes) {
    || (exists k: nat :: OwnedAt(disk.owners, identity, k))
    || (Unowned(disk.owners, identity) && exists f: nat :: LowestFree(disk.owners, f))
  }

  predicate RootReady(disk: Disk, identity: Bytes) {
    Namespace(identity) in disk.roots ==> disk.roots[Namespace(identity)] == identity
  }

  /** With power to the end, a call succeeds exactly when its root is not another's
      and the search gets to a slot of its own or a free one. */
  lemma SucceedsExactly(disk: Disk, identity: Bytes, power: nat)
    requires Utf8.Valid(identity) && power >= Enough(identity)
    ensures Call(disk, identity, power).1.Ok? <==> SlotReady(disk, identity) && RootReady(disk, identity)
  {
    hide Utf8.Valid, Search, Namespace, Torn;
    SearchFinds(disk.owners, identity, 0, None);
    var found := Search(disk.owners, identity, 0, None);
    if found.Ok? {
      OwnedOnce(disk.owners, identity);
    }
  }

  lemma OwnedOnce(owners: map<nat, Bytes>, identity: Bytes)
    ensures Unowned(owners, identity) ==> forall k: nat :: !OwnedAt(owners, identity, k)
  {
    hide Utf8.Valid;
  }

  /** A root with another owner refuses the identity for good. */
  lemma {:induction false} RefusedForGood(disk: Disk, identity: Bytes, later: seq<Request>, power: nat)
    requires Dense(disk) && !RootReady(disk, identity)
    ensures !Call(AfterFrom(disk, later), identity, power).1.Ok?
    decreases |later|
  {
    hide Utf8.Valid, Search, Namespace, Torn, Claim;
    if later != [] {
      var next := Call(disk, later[0].identity, later[0].power).0;
      CallExtends(disk, later[0].identity, later[0].power);
      RefusedForGood(next, identity, later[1..], power);
    }
  }

  function AfterFrom(disk: Disk, calls: seq<Request>): Disk
    decreases |calls|
  {
    if calls == [] then disk
    else AfterFrom(Call(disk, calls[0].identity, calls[0].power).0, calls[1..])
  }

  /** The power the root's owner file takes. */
  function RootCost(disk: Disk, identity: Bytes): nat {
    if Namespace(identity) in disk.roots then 0 else |identity| + 1
  }

  /** Retrying after a crash works exactly when the crash did not tear the root's
      owner file, and tore the slot's owner file, if at all, between two characters
      and with another slot free. */
  lemma RetryAfterCrash(disk: Disk, identity: Bytes, power: nat, again: nat)
    requires Dense(disk) && Utf8.Valid(identity) && again >= Enough(identity)
    requires Call(disk, identity, power).1 == Err(PowerLost)
    ensures
      var crashed := Call(disk, identity, power).0;
      var cost := RootCost(disk, identity);
      Call(crashed, identity, again).1.Ok? <==>
        if power < cost then power == 0
        else if power == cost then true
        else Utf8.Valid(Torn(identity, power - cost)) && exists f: nat :: f < SLOTS && f !in crashed.owners
  {
    hide Utf8.Valid, Search, Namespace, SlotReady, RootReady, Claim;
    var (crashed, _) := Call(disk, identity, power);
    var cost := RootCost(disk, identity);
    SearchFinds(disk.owners, identity, 0, None);
    SucceedsExactly(crashed, identity, again);
    if power <= cost {
      CrashInRoot(disk, identity, power);
    } else {
      CrashInSlot(disk, identity, power);
    }
  }

  lemma CrashInRoot(disk: Disk, identity: Bytes, power: nat)
    requires Dense(disk) && Utf8.Valid(identity)
    requires Call(disk, identity, power).1 == Err(PowerLost) && power <= RootCost(disk, identity)
    ensures
      var crashed := Call(disk, identity, power).0;
      SlotReady(crashed, identity)
      && (RootReady(crashed, identity) <==> power == 0 || power == RootCost(disk, identity))
  {
    hide Utf8.Valid, Search, Namespace;
    SearchFinds(disk.owners, identity, 0, None);
    WholeText(identity);
  }

  lemma CrashInSlot(disk: Disk, identity: Bytes, power: nat)
    requires Dense(disk) && Utf8.Valid(identity)
    requires Call(disk, identity, power).1 == Err(PowerLost) && power > RootCost(disk, identity)
    ensures
      var crashed := Call(disk, identity, power).0;
      && RootReady(crashed, identity)
      && (SlotReady(crashed, identity) <==>
          && Utf8.Valid(Torn(identity, power - RootCost(disk, identity)))
          && exists f: nat :: f < SLOTS && f !in crashed.owners)
  {
    hide Utf8.Valid, Search, Namespace;
    SearchFinds(disk.owners, identity, 0, None);
    WholeText(identity);
    var crashed := Call(disk, identity, power).0;
    var slot := Search(disk.owners, identity, 0, None).value.free.value;
    var part := Torn(identity, power - RootCost(disk, identity));
    assert crashed.owners == disk.owners[slot := part];
    assert part != identity;
    TornSlot(disk.owners, identity, slot, part);
  }

  lemma TornSlot(owners: map<nat, Bytes>, identity: Bytes, slot: nat, part: Bytes)
    requires forall j: nat, k: nat :: j < k && k in owners ==> j in owners
    requires Unowned(owners, identity) && LowestFree(owners, slot) && part != identity
    ensures
      var torn := owners[slot := part];
      && (forall k: nat :: !OwnedAt(torn, identity, k))
      && (Unowned(torn, identity) <==> Utf8.Valid(part))
      && ((exists f: nat :: LowestFree(torn, f)) <==> exists f: nat :: f < SLOTS && f !in torn)
  {
    hide Utf8.Valid;
    var torn := owners[slot := part];
    if f: nat :| f < SLOTS && f !in torn {
      assert f > slot;
      assert slot + 1 !in owners;
      assert LowestFree(torn, slot + 1);
    }
    if f: nat :| LowestFree(torn, f) {
      assert f < SLOTS && f !in torn;
    }
    assert torn[slot] == part;
  }
}
