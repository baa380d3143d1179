/** The chains of evidence records (`newest` in `gmcp_evidence.rs`): every record
    after the first of its requirement supersedes one before it. */
module Evidence {
  import opened Ordered
  import opened Outcome
  import opened Utf8

  /** A JSON value as far as records compare it; a missing key reads as null. */
  datatype Value = Null | Number(n: nat) | Text(t: Bytes) | Other(kind: nat)

  /** What identifies a record: `recorded_unix`, `identity`, `artifact_sha256`. */
  datatype Stamp = Stamp(recorded: Value, identity: Value, artifact: Value)

  datatype Record = Record(requirement: Value, stamp: Stamp, supersedes: Stamp, body: Value)

  datatype Line = Blank | Broken | Entry(record: Record)

  datatype Problem = NotJson | MissingRequirement | Unlinked

  predicate Names(record: Record, target: Record) {
    record.supersedes == target.stamp
  }

  /** `recorded_unix` as an unsigned number, 0 when it is not one. */
  function Time(record: Record): nat {
    if record.stamp.recorded.Number? then record.stamp.recorded.n else 0
  }

  // ----- Chains -----

  predicate Keyed(line: Line, key: Bytes) {
    line.Entry? && line.record.requirement == Text(key)
  }

  /** The records of a requirement, in the order of the file. */
  function Chain(lines: seq<Line>, key: Bytes): seq<Record> {
    if lines == [] then []
    else
      var last := lines[|lines| - 1];
      Chain(lines[..|lines| - 1], key) + if Keyed(last, key) then [last.record] else []
  }

  predicate NamesSome(record: Record, chain: seq<Record>) {
    exists i :: 0 <= i < |chain| && Names(record, chain[i])
  }

  predicate Usable(line: Line) {
    line.Entry? ==> line.record.requirement.Text? && line.record.requirement.t != []
  }

  /** The file is accepted: it parses, every record has a requirement, and every
      record but the first of a requirement names an earlier one. */
  predicate Sound(lines: seq<Line>) {
    forall i :: 0 <= i < |lines| ==>
      && !lines[i].Broken?
      && Usable(lines[i])
      && (lines[i].Entry? ==>
            var chain := Chain(lines[..i], lines[i].record.requirement.t);
            chain == [] || NamesSome(lines[i].record, chain))
  }

  /** The requirements of a file, in order. */
  function Keys(lines: seq<Line>): seq<Bytes> {
    if lines == [] then []
    else
      var init, last := Keys(lines[..|lines| - 1]), lines[|lines| - 1];
      if last.Entry? && last.record.requirement.Text? then Inserted(init, last.record.requirement.t) else init
  }

  // ----- The newest record of a chain -----

  /** No record of the chain supersedes this one. */
  predicate Current(record: Record, chain: seq<Record>) {
    forall i :: 0 <= i < |chain| ==> !Names(chain[i], record)
  }

  /** The current records among `some`. */
  function Heads(some: seq<Record>, chain: seq<Record>): seq<Record> {
    if some == [] then []
    else
      var last := some[|some| - 1];
      Heads(some[..|some| - 1], chain) + if Current(last, chain) then [last] else []
  }

  /** The record with the largest time, the last of several. */
  function LastMax(records: seq<Record>): Option<Record> {
    if records == [] then None
    else
      var init, last := LastMax(records[..|records| - 1]), records[|records| - 1];
      if init.Some? && Time(init.value) > Time(last) then init else Some(last)
  }

  function Latest(chain: seq<Record>): Option<Record> {
    LastMax(Heads(chain, chain))
  }

  function Report(keys: seq<Bytes>, lines: seq<Line>): seq<Record> {
    if keys == [] then []
    else
      var latest := Latest(Chain(lines, keys[0]));
      (if latest.Some? then [latest.value] else []) + Report(keys[1..], lines)
  }

  /** What `newest` reports of an accepted file. */
  function Newest(lines: seq<Line>): seq<Record> {
    Report(Keys(lines), lines)
  }

  // ----- The code -----

  ghost predicate Grown(lines: seq<Line>, chains: map<Bytes, seq<Record>>, keys: seq<Bytes>) {
    && keys == Keys(lines)
    && (forall k :: k in chains <==> k in keys)
    && (forall k :: k in chains ==> chains[k] == Chain(lines, k) && chains[k] != [])
    && (forall k :: k !in chains ==> Chain(lines, k) == [])
  }

  lemma SoundMore(lines: seq<Line>, i: nat)
    requires i < |lines| && Sound(lines[..i])
    ensures
      Sound(lines[..i + 1]) <==>
        && !lines[i].Broken?
        && Usable(lines[i])
        && (lines[i].Entry? ==>
              var chain := Chain(lines[..i], lines[i].record.requirement.t);
              chain == [] || NamesSome(lines[i].record, chain))
  {
    hide Chain, Usable, NamesSome;
    var more := lines[..i + 1];
    assert more[i] == lines[i] && more[..i] == lines[..i];
    forall j | 0 <= j < i
      ensures more[j] == lines[..i][j] && more[..j] == lines[..i][..j]
    {
    }
  }

  lemma SoundPrefix(lines: seq<Line>, i: nat)
    requires i <= |lines| && Sound(lines)
    ensures Sound(lines[..i])
  {
    hide Chain, Usable, NamesSome;
    forall j | 0 <= j < i
      ensures lines[..i][..j] == lines[..j]
    {
    }
  }

  lemma ChainMore(lines: seq<Line>, i: nat, key: Bytes)
    requires i < |lines|
    ensures Chain(lines[..i + 1], key)
         == Chain(lines[..i], key) + if Keyed(lines[i], key) then [lines[i].record] else []
  {
    assert lines[..i + 1][..i] == lines[..i];
  }

  lemma KeysMore(lines: seq<Line>, i: nat)
    requires i < |lines|
    ensures
      Keys(lines[..i + 1]) ==
        if lines[i].Entry? && lines[i].record.requirement.Text?
        then Inserted(Keys(lines[..i]), lines[i].record.requirement.t) else Keys(lines[..i])
  {
    assert lines[..i + 1][..i] == lines[..i];
  }

  lemma {:induction false} KeysAreSorted(lines: seq<Line>)
    ensures Sorted(Keys(lines))
    decreases |lines|
  {
    hide Inserted, Sorted;
    if lines == [] {
      NothingIsSorted();
    } else {
      var init, last := lines[..|lines| - 1], lines[|lines| - 1];
      KeysAreSorted(init);
      if last.Entry? && last.record.requirement.Text? {
        InsertedIsSorted(Keys(init), last.record.requirement.t);
      }
    }
  }

  lemma NothingIsSorted()
    ensures Sorted([])
  {
  }

  lemma GrownBlank(lines: seq<Line>, i: nat, chains: map<Bytes, seq<Record>>, keys: seq<Bytes>)
    requires i < |lines| && Grown(lines[..i], chains, keys) && lines[i].Blank?
    ensures Grown(lines[..i + 1], chains, keys)
  {
    hide Chain, Keys, Inserted;
    KeysMore(lines, i);
    forall k
      ensures Chain(lines[..i + 1], k) == Chain(lines[..i], k)
    {
      ChainMore(lines, i, k);
    }
  }

  lemma ChainGrows(lines: seq<Line>, i: nat, k: Bytes)
    requires i < |lines| && lines[i].Entry? && lines[i].record.requirement.Text?
    ensures Chain(lines[..i + 1], k) ==
      if k == lines[i].record.requirement.t then Chain(lines[..i], k) + [lines[i].record] else Chain(lines[..i], k)
  {
    hide Chain;
    ChainMore(lines, i, k);
  }

  lemma GrownEntry(lines: seq<Line>, i: nat, chains: map<Bytes, seq<Record>>, keys: seq<Bytes>)
    requires i < |lines| && Grown(lines[..i], chains, keys)
    requires lines[i].Entry? && lines[i].record.requirement.Text?
    ensures
      var key := lines[i].record.requirement.t;
      var chain := if key in chains then chains[key] else [];
      && chain == Chain(lines[..i], key)
      && Grown(lines[..i + 1], chains[key := chain + [lines[i].record]], Inserted(keys, key))
  {
    hide Chain, Keys, Inserted, Sorted, Keyed;
    var key := lines[i].record.requirement.t;
    KeysMore(lines, i);
    KeysAreSorted(lines[..i]);
    InsertedIsSorted(keys, key);
    forall k
      ensures Chain(lines[..i + 1], k)
           == if k == key then Chain(lines[..i], k) + [lines[i].record] else Chain(lines[..i], k)
    {
      ChainGrows(lines, i, k);
    }
  }

  /** The last loop of `newest`: the newest record of each chain, in the order of the
      requirements. */
  method Collect(ghost lines: seq<Line>, chains: map<Bytes, seq<Record>>, keys: seq<Bytes>)
      returns (newest: seq<Record>)
    requires forall k :: 0 <= k < |keys| ==> keys[k] in chains && chains[keys[k]] == Chain(lines, keys[k])
    ensures newest == Report(keys, lines)
  {
    hide Chain, Latest;
    newest := [];
    var k := 0;
    assert keys[0..] == keys;
    while k < |keys|
      invariant 0 <= k <= |keys|
      invariant newest + Report(keys[k..], lines) == Report(keys, lines)
    {
      assert keys[k..][1..] == keys[k + 1..] && keys[k..][0] == keys[k];
      var latest := Latest(chains[keys[k]]);
      if latest.Some? {
        newest := newest + [latest.value];
      }
      k := k + 1;
    }
  }

  /** `newest`: exactly the sound files, and the newest record of each requirement. */
  method ReadNewest(lines: seq<Line>) returns (r: Result<seq<Record>, Problem>)
    ensures r.Ok? <==> Sound(lines)
    ensures r.Ok? ==> r.value == Newest(lines)
  {
    hide Sound, Grown, Chain, Latest, Inserted, Usable, NamesSome, Report, Keys;
    var chains: map<Bytes, seq<Record>> := map[];
    var keys: seq<Bytes> := [];
    Nothing();
    assert lines[..0] == [];
    var i := 0;
    while i < |lines|
      invariant 0 <= i <= |lines|
      invariant Sound(lines[..i]) && Grown(lines[..i], chains, keys)
    {
      SoundMore(lines, i);
      UsableLine(lines[i]);
      match lines[i] {
      case Blank =>
        GrownBlank(lines, i, chains, keys);
      case Broken =>
        Refuse(lines, i);
        return Err(NotJson);
      case Entry(record) =>
        if !record.requirement.Text? || record.requirement.t == [] {
          Refuse(lines, i);
          return Err(MissingRequirement);
        }
        GrownEntry(lines, i, chains, keys);
        var key := record.requirement.t;
        var chain := if key in chains then chains[key] else [];
        if chain != [] && !NamesSome(record, chain) {
          Refuse(lines, i);
          return Err(Unlinked);
        }
        chains := chains[key := chain + [record]];
        keys := Inserted(keys, key);
      }
      i := i + 1;
    }
    assert lines[..i] == lines;
    AllKept(lines, chains, keys);
    var newest := Collect(lines, chains, keys);
    return Ok(newest);
  }

  lemma UsableLine(line: Line)
    ensures Usable(line) <==> (line.Entry? ==> line.record.requirement.Text? && line.record.requirement.t != [])
  {
  }

  lemma Nothing()
    ensures Sound([]) && Grown([], map[], [])
  {
  }

  lemma Refuse(lines: seq<Line>, i: nat)
    requires i < |lines| && !Sound(lines[..i + 1])
    ensures !Sound(lines)
  {
    hide Sound;
    if Sound(lines) {
      SoundPrefix(lines, i + 1);
    }
  }

  lemma AllKept(lines: seq<Line>, chains: map<Bytes, seq<Record>>, keys: seq<Bytes>)
    requires Grown(lines, chains, keys)
    ensures keys == Keys(lines)
    ensures forall k :: 0 <= k < |keys| ==> keys[k] in chains && chains[keys[k]] == Chain(lines, keys[k])
  {
    hide Chain, Keys;
    assert forall k :: 0 <= k < |keys| ==> keys[k] in keys;
  }

  // ----- Recording again -----

  /** The record that `run` appends for a record it checked again. */
  function Superseding(r: Record, now: nat, identity: Value, artifact: Value): Record {
    Record(r.requirement, Stamp(Number(now), identity, artifact), r.stamp, r.body)
  }

  function Appended(chosen: seq<Record>, now: nat, identity: Value, artifact: Value): (lines: seq<Line>)
    ensures |lines| == |chosen|
    ensures forall i :: 0 <= i < |chosen| ==> lines[i] == Entry(Superseding(chosen[i], now, identity, artifact))
  {
    if chosen == [] then []
    else [Entry(Superseding(chosen[0], now, identity, artifact))] + Appended(chosen[1..], now, identity, artifact)
  }

  predicate Before(v: Value, now: nat) {
    v.Number? ==> v.n < now
  }

  /** The clock is past every time the record mentions. */
  predicate Past(r: Record, now: nat) {
    Before(r.stamp.recorded, now) && Before(r.supersedes.recorded, now)
  }

  predicate PastAll(chain: seq<Record>, now: nat) {
    forall i :: 0 <= i < |chain| ==> Past(chain[i], now)
  }

  predicate Fresh(lines: seq<Line>, now: nat) {
    forall i :: 0 <= i < |lines| && lines[i].Entry? ==> Past(lines[i].record, now)
  }

  lemma {:induction false} HeadsAreMembers(some: seq<Record>, chain: seq<Record>)
    ensures forall r :: r in Heads(some, chain) ==> r in some && Current(r, chain)
    decreases |some|
  {
    hide Current;
    if some != [] {
      HeadsAreMembers(some[..|some| - 1], chain);
    }
  }

  lemma {:induction false} LastMaxIsMember(records: seq<Record>)
    requires records != []
    ensures LastMax(records).Some? && LastMax(records).value in records
    ensures forall r :: r in records ==> Time(r) <= Time(LastMax(records).value)
    decreases |records|
  {
    hide Time;
    var init, last := records[..|records| - 1], records[|records| - 1];
    assert records == init + [last];
    if init != [] {
      LastMaxIsMember(init);
    }
  }

  lemma HeadsMore(chain: seq<Record>, added: Record)
    ensures Heads(chain + [added], chain + [added])
         == Heads(chain, chain + [added]) + if Current(added, chain + [added]) then [added] else []
  {
    hide Current;
    assert (chain + [added])[..|chain|] == chain;
  }

  lemma LastMaxMore(records: seq<Record>, added: Record)
    ensures LastMax(records + [added]) == Some(added) <==> forall r :: r in records ==> Time(r) <= Time(added)
  {
    hide Time;
    assert (records + [added])[..|records|] == records;
    if records != [] {
      LastMaxIsMember(records);
    }
  }

  /** An appended record is the newest exactly when nothing in the chain already
      names it, itself included, and no record still current is later. */
  lemma AppendedIsNewestExactly(chain: seq<Record>, added: Record)
    ensures Latest(chain + [added]) == Some(added) <==>
              && Current(added, chain + [added])
              && forall h :: h in Heads(chain, chain + [added]) ==> Time(h) <= Time(added)
  {
    hide Current, Time, Heads, LastMax;
    var more := chain + [added];
    HeadsMore(chain, added);
    LastMaxMore(Heads(chain, more), added);
    if !Current(added, more) {
      HeadsAreMembers(more, more);
      NewestOf(Heads(more, more));
    }
  }

  lemma NewestOf(records: seq<Record>)
    ensures LastMax(records).Some? ==> LastMax(records).value in records
  {
    if records != [] {
      LastMaxIsMember(records);
    }
  }

  /** Recording again in the same second, as the same agent and over the same ledger,
      makes a record that supersedes itself: it is never the newest. */
  lemma SameStampIsLost(chain: seq<Record>, r: Record, now: nat, identity: Value, artifact: Value)
    requires r.stamp == Stamp(Number(now), identity, artifact)
    ensures Latest(chain + [Superseding(r, now, identity, artifact)]) != Some(Superseding(r, now, identity, artifact))
  {
    var added := Superseding(r, now, identity, artifact);
    AppendedIsNewestExactly(chain, added);
    assert Names((chain + [added])[|chain|], added);
  }

  lemma LatestIsMember(chain: seq<Record>)
    requires Latest(chain).Some?
    ensures Latest(chain).value in chain
  {
    HeadsAreMembers(chain, chain);
    LastMaxIsMember(Heads(chain, chain));
  }

  /** With the clock past every time the chain mentions, the appended record is the
      chain's newest. */
  lemma AppendedIsNewest(chain: seq<Record>, r: Record, now: nat, identity: Value, artifact: Value)
    requires r in chain && PastAll(chain, now)
    ensures Latest(chain + [Superseding(r, now, identity, artifact)]) == Some(Superseding(r, now, identity, artifact))
  {
    var added := Superseding(r, now, identity, artifact);
    var more := chain + [added];
    AppendedIsNewestExactly(chain, added);
    HeadsAreMembers(chain, more);
    forall h | h in Heads(chain, more)
      ensures Time(h) <= Time(added)
    {
      var i :| 0 <= i < |chain| && chain[i] == h;
      assert Past(chain[i], now);
    }
    var j :| 0 <= j < |chain| && chain[j] == r;
    assert Past(chain[j], now);
    forall i | 0 <= i < |more|
      ensures !Names(more[i], added)
    {
      if i < |chain| {
        assert Past(chain[i], now);
      }
    }
  }

  // ----- One append -----

  lemma {:induction false} ChainKeys(lines: seq<Line>, key: Bytes)
    ensures forall r :: r in Chain(lines, key) ==> r.requirement == Text(key)
    ensures Chain(lines, key) != [] ==> key in Keys(lines)
    decreases |lines|
  {
    hide Inserted;
    if lines != [] {
      var init, last := lines[..|lines| - 1], lines[|lines| - 1];
      ChainKeys(init, key);
      if last.Entry? && last.record.requirement.Text? {
        KeysAreSorted(init);
        InsertedIsSorted(Keys(init), last.record.requirement.t);
      }
    }
  }

  lemma InsertedAgain(keys: seq<Bytes>, key: Bytes)
    requires Sorted(keys) && key in keys
    ensures Inserted(keys, key) == keys
  {
    hide Inserted, Sorted;
    InsertedIsSorted(keys, key);
    SortedIsUnique(Inserted(keys, key), keys);
  }

  /** The newest records after another record is appended to one chain. */
  function Swap(records: seq<Record>, was: Record, added: Record): (r: seq<Record>)
    ensures |r| == |records|
    ensures forall i :: 0 <= i < |r| ==> r[i] == if records[i] == was then added else records[i]
  {
    if records == [] then [] else [if records[0] == was then added else records[0]] + Swap(records[1..], was, added)
  }

  lemma {:induction false} ReportSwaps(keys: seq<Bytes>, lines: seq<Line>, more: seq<Line>, was: Record, added: Record)
    requires was.requirement.Text?
    requires forall k :: k in keys && k != was.requirement.t ==> Chain(more, k) == Chain(lines, k)
    requires Latest(Chain(lines, was.requirement.t)) == Some(was)
    requires Latest(Chain(more, was.requirement.t)) == Some(added)
    ensures Report(keys, more) == Swap(Report(keys, lines), was, added)
    decreases |keys|
  {
    hide Chain, Latest;
    if keys != [] {
      ReportSwaps(keys[1..], lines, more, was, added);
      var latest := Latest(Chain(lines, keys[0]));
      if keys[0] != was.requirement.t && latest.Some? {
        LatestIsMember(Chain(lines, keys[0]));
        ChainKeys(lines, keys[0]);
        assert latest.value != was;
      }
      if latest.Some? {
        var rest := Report(keys[1..], lines);
        assert ([latest.value] + rest)[1..] == rest;
      }
    }
  }

  lemma AppendOne(lines: seq<Line>, r: Record, now: nat, identity: Value, artifact: Value)
    requires Sound(lines) && r.requirement.Text? && r.requirement.t != []
    requires Latest(Chain(lines, r.requirement.t)) == Some(r) && PastAll(Chain(lines, r.requirement.t), now)
    ensures
      var added := Superseding(r, now, identity, artifact);
      var more := lines + [Entry(added)];
      && Sound(more) && Newest(more) == Swap(Newest(lines), r, added)
      && Chain(more, r.requirement.t) == Chain(lines, r.requirement.t) + [added]
      && (forall k :: k != r.requirement.t ==> Chain(more, k) == Chain(lines, k))
  {
    hide Chain, Latest, Inserted, PastAll, Sound, Keys, Swap, Report;
    var key, added := r.requirement.t, Superseding(r, now, identity, artifact);
    var more := lines + [Entry(added)];
    var n := |lines|;
    assert more[..n] == lines && more[..n + 1] == more && more[n] == Entry(added);
    LatestIsMember(Chain(lines, key));
    forall k
      ensures Chain(more, k) == Chain(lines, k) + if Keyed(Entry(added), k) then [added] else []
    {
      ChainMore(more, n, k);
    }
    AppendedIsNewest(Chain(lines, key), r, now, identity, artifact);
    SoundMore(more, n);
    LinkedTo(added, r, Chain(lines, key));
    KeysMore(more, n);
    ChainKeys(lines, key);
    KeysAreSorted(lines);
    InsertedAgain(Keys(lines), key);
    ReportSwaps(Keys(lines), lines, more, r, added);
  }

  lemma LinkedTo(record: Record, target: Record, chain: seq<Record>)
    requires target in chain && Names(record, target)
    ensures NamesSome(record, chain)
  {
  }

  // ----- A whole run -----

  /** The records a run checks again: newest records, each once. */
  predicate Chosen(chosen: seq<Record>, lines: seq<Line>) {
    && (forall i :: 0 <= i < |chosen| ==> IsNewest(chosen[i], lines))
    && (forall i, j :: 0 <= i < j < |chosen| ==> chosen[i].requirement != chosen[j].requirement)
  }

  /** The record is the newest of its requirement. */
  predicate IsNewest(r: Record, lines: seq<Line>) {
    r.requirement.Text? && r.requirement.t != [] && Latest(Chain(lines, r.requirement.t)) == Some(r)
  }

  /** What `newest` reports are the newest records of the requirements. */
  lemma {:induction false} ReportedAreNewest(keys: seq<Bytes>, lines: seq<Line>)
    requires [] !in keys
    ensures forall r :: r in Report(keys, lines) ==> IsNewest(r, lines) && r.requirement.t in keys
    decreases |keys|
  {
    hide Chain, Latest;
    if keys != [] {
      ReportedAreNewest(keys[1..], lines);
      var latest := Latest(Chain(lines, keys[0]));
      if latest.Some? {
        LatestIsMember(Chain(lines, keys[0]));
        ChainKeys(lines, keys[0]);
      }
    }
  }

  lemma {:induction false} SoundKeys(lines: seq<Line>)
    requires Sound(lines)
    ensures [] !in Keys(lines)
    decreases |lines|
  {
    hide Chain, Inserted, NamesSome;
    if lines != [] {
      var n := |lines| - 1;
      SoundPrefix(lines, n);
      SoundKeys(lines[..n]);
      assert Usable(lines[n]);
      if lines[n].Entry? {
        KeysAreSorted(lines[..n]);
        InsertedIsSorted(Keys(lines[..n]), lines[n].record.requirement.t);
      }
    }
  }

  /** Some of the records, in their order. */
  predicate Among(some: seq<Record>, all: seq<Record>)
    decreases |all|
  {
    || some == []
    || (all != [] && ((some[0] == all[0] && Among(some[1..], all[1..])) || Among(some, all[1..])))
  }

  predicate Apart(records: seq<Record>) {
    forall i, j :: 0 <= i < j < |records| ==> records[i].requirement != records[j].requirement
  }

  lemma {:induction false} AmongKeeps(some: seq<Record>, all: seq<Record>)
    requires Among(some, all) && Apart(all)
    ensures Apart(some) && forall r :: r in some ==> r in all
    decreases |all|
  {
    if some != [] {
      assert all == [all[0]] + all[1..];
      assert Apart(all[1..]);
      if some[0] == all[0] && Among(some[1..], all[1..]) {
        AmongKeeps(some[1..], all[1..]);
        assert some == [some[0]] + some[1..];
        forall j | 0 <= j < |some[1..]|
          ensures some[1..][j].requirement != some[0].requirement
        {
          assert some[1..][j] in all[1..];
        }
      } else {
        AmongKeeps(some, all[1..]);
      }
    }
  }

  lemma {:induction false} ReportIsApart(keys: seq<Bytes>, lines: seq<Line>)
    requires Sorted(keys) && [] !in keys
    ensures Apart(Report(keys, lines))
    decreases |keys|
  {
    hide Chain, Latest, Less;
    if keys != [] {
      TailSorted(keys);
      ReportIsApart(keys[1..], lines);
      ReportedAreNewest(keys[1..], lines);
      var latest, rest := Latest(Chain(lines, keys[0])), Report(keys[1..], lines);
      if latest.Some? {
        LatestIsMember(Chain(lines, keys[0]));
        ChainKeys(lines, keys[0]);
        forall j | 0 <= j < |rest|
          ensures rest[j].requirement != latest.value.requirement
        {
          assert rest[j] in rest;
        }
      }
    }
  }

  lemma TailSorted(keys: seq<Bytes>)
    requires Sorted(keys) && keys != []
    ensures Sorted(keys[1..]) && keys[0] !in keys[1..] && forall k :: k in keys[1..] ==> k in keys
  {
    hide Less;
    forall i | 0 < i < |keys|
      ensures keys[i] != keys[0]
    {
      LessIsTotal(keys[0], keys[i]);
    }
  }

  /** A run may record again any of the reported records, in their order. */
  lemma ReportedMayBeChosen(lines: seq<Line>, some: seq<Record>)
    requires Sound(lines) && Among(some, Newest(lines))
    ensures Chosen(some, lines)
  {
    hide Sound, IsNewest, Keys, Report, Among;
    SoundKeys(lines);
    KeysAreSorted(lines);
    ReportedAreNewest(Keys(lines), lines);
    ReportIsApart(Keys(lines), lines);
    AmongKeeps(some, Newest(lines));
    forall i | 0 <= i < |some|
      ensures IsNewest(some[i], lines)
    {
      assert some[i] in some;
    }
  }

  lemma {:induction false} FreshChain(lines: seq<Line>, key: Bytes, now: nat)
    requires Fresh(lines, now)
    ensures PastAll(Chain(lines, key), now)
    decreases |lines|
  {
    if lines != [] {
      var n := |lines| - 1;
      FreshChain(lines[..n], key, now);
      assert lines[n].Entry? ==> Past(lines[n].record, now);
    }
  }

  /** What `newest` reports once the records `chosen` are superseded. */
  function Renewed(records: seq<Record>, chosen: seq<Record>, now: nat, identity: Value, artifact: Value)
    : (r: seq<Record>)
    ensures |r| == |records|
    ensures forall i :: 0 <= i < |r| ==>
      r[i] == if records[i] in chosen then Superseding(records[i], now, identity, artifact) else records[i]
  {
    seq(|records|, i requires 0 <= i < |records| =>
      if records[i] in chosen then Superseding(records[i], now, identity, artifact) else records[i])
  }

  lemma RenewedStep(records: seq<Record>, chosen: seq<Record>, now: nat, identity: Value, artifact: Value)
    requires chosen != []
    requires forall i, j :: 0 <= i < j < |chosen| ==> chosen[i].requirement != chosen[j].requirement
    ensures
      var added := Superseding(chosen[0], now, identity, artifact);
      Renewed(Swap(records, chosen[0], added), chosen[1..], now, identity, artifact)
      == Renewed(records, chosen, now, identity, artifact)
  {
    hide Swap, Renewed;
    var r, rest := chosen[0], chosen[1..];
    var added := Superseding(r, now, identity, artifact);
    forall i | 0 <= i < |rest|
      ensures rest[i] != added && rest[i] != r
    {
      assert chosen[i + 1].requirement != r.requirement;
    }
    assert chosen == [r] + rest;
  }

  lemma RenewedNone(records: seq<Record>, now: nat, identity: Value, artifact: Value)
    ensures Renewed(records, [], now, identity, artifact) == records
  {
  }

  lemma StillNewest(lines: seq<Line>, more: seq<Line>, r: Record, other: Record, now: nat)
    requires IsNewest(r, lines) && PastAll(Chain(lines, r.requirement.t), now)
    requires other.requirement.Text? && other.requirement != r.requirement
    requires forall k :: k != other.requirement.t ==> Chain(more, k) == Chain(lines, k)
    ensures IsNewest(r, more) && PastAll(Chain(more, r.requirement.t), now)
  {
    hide Chain, Latest, PastAll;
  }

  /** The clock is past every time in the chains of the chosen records. */
  predicate Ready(chosen: seq<Record>, lines: seq<Line>, now: nat) {
    && Chosen(chosen, lines)
    && forall i :: 0 <= i < |chosen| ==>
         chosen[i].requirement.Text? && PastAll(Chain(lines, chosen[i].requirement.t), now)
  }

  lemma ReadyNext(lines: seq<Line>, chosen: seq<Record>, more: seq<Line>, now: nat)
    requires Ready(chosen, lines, now) && chosen != [] && chosen[0].requirement.Text?
    requires forall k :: k != chosen[0].requirement.t ==> Chain(more, k) == Chain(lines, k)
    ensures Ready(chosen[1..], more, now)
  {
    hide Chain, Latest, PastAll, IsNewest;
    var rest := chosen[1..];
    forall i | 0 <= i < |rest|
      ensures rest[i].requirement.Text? && IsNewest(rest[i], more) && PastAll(Chain(more, rest[i].requirement.t), now)
    {
      assert rest[i] == chosen[i + 1];
      StillNewest(lines, more, chosen[i + 1], chosen[0], now);
    }
    forall i, j | 0 <= i < j < |rest|
      ensures rest[i].requirement != rest[j].requirement
    {
      assert rest[i] == chosen[i + 1] && rest[j] == chosen[j + 1];
    }
  }

  lemma ReadyFirst(lines: seq<Line>, chosen: seq<Record>, now: nat)
    requires Ready(chosen, lines, now) && chosen != []
    ensures
      var r := chosen[0];
      && r.requirement.Text? && r.requirement.t != [] && Latest(Chain(lines, r.requirement.t)) == Some(r)
      && PastAll(Chain(lines, r.requirement.t), now)
    ensures forall i, j :: 0 <= i < j < |chosen| ==> chosen[i].requirement != chosen[j].requirement
  {
    hide Chain, Latest, PastAll;
    assert IsNewest(chosen[0], lines);
  }

  lemma {:induction false} AppendAll(lines: seq<Line>, chosen: seq<Record>, now: nat, identity: Value, artifact: Value)
    requires Sound(lines) && Ready(chosen, lines, now)
    ensures
      var more := lines + Appended(chosen, now, identity, artifact);
      Sound(more) && Newest(more) == Renewed(Newest(lines), chosen, now, identity, artifact)
    decreases |chosen|
  {
    hide Sound, Newest, Latest, Chain, PastAll, Renewed, Swap, IsNewest, Ready, Superseding;
    if chosen == [] {
      assert lines + Appended(chosen, now, identity, artifact) == lines;
      RenewedNone(Newest(lines), now, identity, artifact);
    } else {
      var added := Superseding(chosen[0], now, identity, artifact);
      ReadyFirst(lines, chosen, now);
      AppendOne(lines, chosen[0], now, identity, artifact);
      var next := lines + [Entry(added)];
      ReadyNext(lines, chosen, next, now);
      AppendAll(next, chosen[1..], now, identity, artifact);
      assert next + Appended(chosen[1..], now, identity, artifact) == lines + Appended(chosen, now, identity, artifact);
      RenewedStep(Newest(lines), chosen, now, identity, artifact);
    }
  }

  lemma FreshIsReady(lines: seq<Line>, chosen: seq<Record>, now: nat)
    requires Chosen(chosen, lines) && Fresh(lines, now)
    ensures Ready(chosen, lines, now)
  {
    hide Latest, Chain, PastAll, Fresh;
    forall i | 0 <= i < |chosen|
      ensures chosen[i].requirement.Text? && PastAll(Chain(lines, chosen[i].requirement.t), now)
    {
      assert IsNewest(chosen[i], lines);
      FreshChain(lines, chosen[i].requirement.t, now);
    }
  }

  /** Appending what a run records, with the clock past every time in the file, keeps
      every chain linked; the newest record of each requirement checked again is the
      appended one, and of every other requirement the one before. */
  lemma AppendIsExact(lines: seq<Line>, chosen: seq<Record>, now: nat, identity: Value, artifact: Value)
    requires Sound(lines) && Chosen(chosen, lines) && Fresh(lines, now)
    ensures
      var more := lines + Appended(chosen, now, identity, artifact);
      Sound(more) && Newest(more) == Renewed(Newest(lines), chosen, now, identity, artifact)
  {
    hide Sound, Newest, Fresh, Chosen, Renewed;
    FreshIsReady(lines, chosen, now);
    AppendAll(lines, chosen, now, identity, artifact);
  }

  /** A whole run: whichever of the reported records are recorded again, with the clock
      past every time in the file. */
  lemma RunIsExact(lines: seq<Line>, some: seq<Record>, now: nat, identity: Value, artifact: Value)
    requires Sound(lines) && Among(some, Newest(lines)) && Fresh(lines, now)
    ensures
      var more := lines + Appended(some, now, identity, artifact);
      Sound(more) && Newest(more) == Renewed(Newest(lines), some, now, identity, artifact)
  {
    hide Sound, Newest, Fresh, Chosen, Renewed, Among;
    ReportedMayBeChosen(lines, some);
    AppendIsExact(lines, some, now, identity, artifact);
  }

  /** And any later clock is past everything again. */
  lemma LaterIsFresh(lines: seq<Line>, chosen: seq<Record>, now: nat, identity: Value, artifact: Value, later: nat)
    requires Fresh(lines, now) && now < later
    requires forall i :: 0 <= i < |chosen| ==> Entry(chosen[i]) in lines
    ensures Fresh(lines + Appended(chosen, now, identity, artifact), later)
  {
    var more := lines + Appended(chosen, now, identity, artifact);
    forall i | 0 <= i < |more| && more[i].Entry?
      ensures Past(more[i].record, later)
    {
      if i < |lines| {
        assert Past(lines[i].record, now);
      } else {
        var j :| 0 <= j < |lines| && lines[j] == Entry(chosen[i - |lines|]);
        assert Past(lines[j].record, now);
      }
    }
  }
}
