/** The ELF inventory as it is coded: 64-bit arithmetic over the bytes of a file.
    Every sum and product that the code leaves unchecked is shown to stay below
    2^64, and every range it reads to be checked first. */
module ElfReader {
  import opened Ordered
  import opened Outcome
  import opened Utf8
  import opened Elf

  newtype u64 = x: int | 0 <= x < 0x1_0000_0000_0000_0000

  /** No slice is longer than the largest signed address. */
  const LONGEST: nat := 0x8000_0000_0000_0000

  datatype Problem =
    | BadIdentification
    | BadClass
    | BadEncoding
    | NotAnImage
    | BadProgramTable
    | RangeOverflow
    | Truncated
    | LoadExceedsMemory
    | AddressOverflow
    | MultipleDynamicTables
    | MultipleInterpreters
    | BadString
    | NoInterpreter
    | RelativeInterpreter
    | NoDynamicTable
    | BadDynamicSize
    | DuplicateStringTable
    | DuplicateStringSize
    | RuntimeSearchPath
    | MissingImports
    | NoStringTable
    | NoStringSize
    | StringsNotInFile
    | AmbiguousStrings
    | NameOutsideTable
    | NotASoname

  function CheckedAdd(a: u64, b: u64): (r: Option<u64>)
    ensures r.Some? <==> a as int + b as int < ADDRESSES
    ensures r.Some? ==> r.value as int == a as int + b as int
  {
    if a as int + b as int < ADDRESSES then Some((a as int + b as int) as u64) else None
  }

  function CheckedSub(a: u64, b: u64): (r: Option<u64>)
    ensures r.Some? <==> b <= a
    ensures r.Some? ==> r.value as int == a as int - b as int
  {
    if b <= a then Some(a - b) else None
  }

  lemma {:induction false} BigEndianGrows(b: Bytes, i: nat)
    requires i < |b|
    ensures BigEndian(b[..i + 1]) == BigEndian(b[..i]) * 256 + b[i]
  {
    assert b[..i + 1][..i] == b[..i];
  }

  lemma {:induction false} LittleEndianGrows(b: Bytes, i: nat)
    requires 0 < i <= |b|
    ensures LittleEndian(b[i - 1..]) == LittleEndian(b[i..]) * 256 + b[i - 1]
  {
    assert b[i - 1..][1..] == b[i..];
  }

  lemma {:induction false} PowerFits(n: nat)
    requires n <= 8
    ensures Power(n) <= ADDRESSES
  {
    assert Power(8) == ADDRESSES by {
      assert Power(4) == 0x1_0000_0000;
    }
    if n < 8 {
      PowerGrows(n, 8);
    }
  }

  lemma {:induction false} PowerGrows(m: nat, n: nat)
    requires m <= n
    ensures Power(m) <= Power(n)
    decreases n - m
  {
    if m < n {
      PowerGrows(m + 1, n);
    }
  }

  lemma {:induction false} NumBound(b: Bytes, little: bool)
    ensures Num(b, little) < Power(|b|)
    decreases |b|
  {
    if b != [] {
      NumBound(b[1..], little);
      NumBound(b[..|b| - 1], little);
    }
  }

  datatype Reader = Reader(bytes: Bytes, little: bool) {
    predicate Valid() {
      |bytes| < LONGEST
    }

    function Range(offset: u64, size: u64): (r: Result<Bytes, Problem>)
      requires Valid()
      ensures r.Ok? <==> offset as int + size as int <= |bytes|
      ensures r.Ok? ==> r.value == bytes[offset..offset as int + size as int]
    {
      var end := CheckedAdd(offset, size);
      if end.None? then Err(RangeOverflow)
      else if offset <= end.value && end.value as int <= |bytes| then Ok(bytes[offset..end.value])
      else Err(Truncated)
    }

    method Number(offset: u64, width: u64) returns (r: Result<u64, Problem>)
      requires Valid() && width <= 8
      ensures r.Ok? <==> offset as int + width as int <= |bytes|
      ensures r.Ok? ==> r.value as int == Field(bytes, offset as int, width as int, little)
    {
      var range := Range(offset, width);
      if range.Err? {
        return Err(range.error);
      }
      var some := range.value;
      var value: u64 := 0;
      PowerFits(|some|);
      if little {
        var i := |some|;
        while i > 0
          invariant 0 <= i <= |some|
          invariant value as int == LittleEndian(some[i..])
        {
          LittleEndianGrows(some, i);
          NumBound(some[i - 1..], true);
          PowerGrows(|some| - i + 1, |some|);
          value := value * 256 + some[i - 1] as u64;
          i := i - 1;
        }
        assert some[0..] == some;
      } else {
        var i := 0;
        while i < |some|
          invariant 0 <= i <= |some|
          invariant value as int == BigEndian(some[..i])
        {
          BigEndianGrows(some, i);
          NumBound(some[..i + 1], false);
          PowerGrows(i + 1, |some|);
          value := value * 256 + some[i] as u64;
          i := i + 1;
        }
        assert some[..|some|] == some;
      }
      return Ok(value);
    }
  }

  // ----- Program headers -----

  /** A loaded segment as it is kept: address, offset and file size. */
  datatype Load = Load(address: u64, offset: u64, size: u64)

  predicate Matches(load: Load, row: Row) {
    row.address == load.address as int && row.offset == load.offset as int && row.size == load.size as int
  }

  predicate Keeps(loads: seq<Load>, rows: seq<Row>) {
    |loads| == |rows| && forall i :: 0 <= i < |loads| ==> Matches(loads[i], rows[i])
  }

  datatype Segments = Segments(loads: seq<Load>, dynamic: Option<(u64, u64)>, interpreter: Option<Bytes>)

  function TextOf(row: Row, file: Bytes): Option<Bytes>
    requires RowFits(row, |file|)
  {
    CString(file[row.offset..row.offset + row.size])
  }

  /** What the code has kept after the rows `rows`. */
  predicate Scanned(rows: seq<Row>, file: Bytes, s: Segments) {
    && RowsFit(rows, |file|)
    && Keeps(s.loads, OfKind(rows, LOAD))
    && (match s.dynamic
        case None => OfKind(rows, DYNAMIC) == []
        case Some((offset, size)) =>
          var d := OfKind(rows, DYNAMIC);
          |d| == 1 && d[0].offset == offset as int && d[0].size == size as int)
    && (match s.interpreter
        case None => OfKind(rows, INTERP) == []
        case Some(text) => |OfKind(rows, INTERP)| == 1 && TextOf(OfKind(rows, INTERP)[0], file) == Some(text))
  }

  /** Rows after which the file is refused, whatever follows. */
  predicate Refused(rows: seq<Row>, file: Bytes) {
    || !RowsFit(rows, |file|)
    || |OfKind(rows, DYNAMIC)| > 1
    || |OfKind(rows, INTERP)| > 1
    || (|OfKind(rows, INTERP)| == 1 && TextOf(OfKind(rows, INTERP)[0], file) == None)
  }

  lemma {:induction false} OfKindPrefix(rows: seq<Row>, n: nat, kind: nat)
    requires n <= |rows|
    ensures OfKind(rows[..n], kind) <= OfKind(rows, kind)
    decreases |rows|
  {
    if n < |rows| {
      OfKindPrefix(rows[..|rows| - 1], n, kind);
      assert rows[..|rows| - 1][..n] == rows[..n];
    } else {
      assert rows[..n] == rows;
    }
  }

  lemma RefusedStays(rows: seq<Row>, n: nat, file: Bytes)
    requires n <= |rows| && Refused(rows[..n], file)
    ensures Refused(rows, file)
  {
    hide OfKind, RowFits;
    OfKindPrefix(rows, n, DYNAMIC);
    OfKindPrefix(rows, n, INTERP);
    if RowsFit(rows, |file|) {
      assert forall r :: r in rows[..n] ==> r in rows;
    }
  }

  /** A refused file has no inventory. */
  lemma RefusedIsRefused(rows: seq<Row>, file: Bytes, machine: nat, wide: bool, little: bool)
    requires Refused(rows, file)
    ensures !RowsFit(rows, |file|) || Summary(file, rows, machine, wide, little) == None
  {
    hide OfKind, CString, Needed, EntriesAt, AbsolutePath;
  }

  /** The name a segment or a string table holds. */
  method String(bytes: Bytes) returns (r: Result<Bytes, Problem>)
    ensures CString(bytes) == if r.Ok? then Some(r.value) else None
  {
    var end := Terminator(bytes);
    if end == |bytes| || end == 0 || end > 4096 {
      return Err(BadString);
    }
    var i := 0;
    while i < end
      invariant 0 <= i <= end
      invariant forall j :: 0 <= j < i ==> Graphic(bytes[j])
    {
      if !Graphic(bytes[i]) {
        return Err(BadString);
      }
      i := i + 1;
    }
    return Ok(bytes[..end]);
  }

  /** One program header, taken into account. */
  method Take(reader: Reader, ghost rows: seq<Row>, kind: u64, offset: u64, address: u64, size: u64, memory: u64,
              s: Segments) returns (r: Result<Segments, Problem>)
    requires reader.Valid() && Scanned(rows, reader.bytes, s)
    ensures
      var row := Row(kind as int, offset as int, address as int, size as int, memory as int);
      if r.Ok? then Scanned(rows + [row], reader.bytes, r.value) else Refused(rows + [row], reader.bytes)
  {
    hide OfKind, CString;
    ghost var row := Row(kind as int, offset as int, address as int, size as int, memory as int);
    OfKindMore(rows, row, LOAD);
    OfKindMore(rows, row, DYNAMIC);
    OfKindMore(rows, row, INTERP);
    FitsMore(rows, row, |reader.bytes|);
    var range := reader.Range(offset, size);
    if range.Err? {
      return Err(range.error);
    }
    if kind == 1 {
      if size > memory {
        return Err(LoadExceedsMemory);
      }
      if CheckedAdd(address, size).None? {
        return Err(AddressOverflow);
      }
      return Ok(s.(loads := s.loads + [Load(address, offset, size)]));
    } else if kind == 2 {
      if s.dynamic.Some? {
        return Err(MultipleDynamicTables);
      }
      return Ok(s.(dynamic := Some((offset, size))));
    } else if kind == 3 {
      var text := String(range.value);
      if text.Err? {
        return Err(text.error);
      }
      if s.interpreter.Some? {
        return Err(MultipleInterpreters);
      }
      return Ok(s.(interpreter := Some(text.value)));
    }
    return Ok(s);
  }

  /** The fields of the program header at `at`. */
  method Fields(reader: Reader, at: u64, wide: bool)
    returns (kind: u64, offset: u64, address: u64, size: u64, memory: u64)
    requires reader.Valid() && at as int + RowSize(wide) <= |reader.bytes|
    ensures Row(kind as int, offset as int, address as int, size as int, memory as int)
         == RowAt(reader.bytes, at as int, wide, reader.little)
  {
    hide Field;
    var width: u64 := if wide then 8 else 4;
    var k := reader.Number(at, 4);
    var o := reader.Number(at + if wide then 8 else 4, width);
    var a := reader.Number(at + if wide then 16 else 8, width);
    var s := reader.Number(at + if wide then 32 else 16, width);
    var m := reader.Number(at + if wide then 40 else 20, width);
    return k.value, o.value, a.value, s.value, m.value;
  }

  lemma RowsGrow(file: Bytes, at: nat, n: nat, total: nat, wide: bool, little: bool)
    requires n < total && at + total * RowSize(wide) <= |file|
    ensures (n + 1) * RowSize(wide) <= total * RowSize(wide)
    ensures
      at + n * RowSize(wide) + RowSize(wide) <= |file| &&
      RowsAt(file, at, n + 1, wide, little)
      == RowsAt(file, at, n, wide, little) + [RowAt(file, at + n * RowSize(wide), wide, little)]
  {
  }

  lemma {:induction false} RowsPrefix(file: Bytes, at: nat, n: nat, total: nat, wide: bool, little: bool)
    requires n <= total && at + total * RowSize(wide) <= |file|
    ensures at + n * RowSize(wide) <= |file|
    ensures RowsAt(file, at, n, wide, little) == RowsAt(file, at, total, wide, little)[..n]
    decreases total - n
  {
    hide RowAt, RowsAt;
    if n == total {
      assert RowsAt(file, at, n, wide, little) == RowsAt(file, at, total, wide, little)[..n];
    } else {
      RowsGrow(file, at, n, total, wide, little);
      RowsPrefix(file, at, n + 1, total, wide, little);
    }
  }

  /** The loop over the program headers. */
  method Scan(reader: Reader, phoff: u64, phsize: u64, count: u64, wide: bool) returns (r: Result<Segments, Problem>)
    requires reader.Valid() && phsize as int == RowSize(wide) && count <= 4096
    requires phoff as int + count as int * RowSize(wide) <= |reader.bytes|
    ensures
      var rows := RowsAt(reader.bytes, phoff as int, count as int, wide, reader.little);
      if r.Ok? then Scanned(rows, reader.bytes, r.value) else Refused(rows, reader.bytes)
  {
    hide Scanned, Refused, RowsAt, RowAt;
    ghost var file, little := reader.bytes, reader.little;
    var s := Segments([], None, None);
    ScannedNone(file);
    RowsNone(file, phoff as int, wide, little);
    var i: u64 := 0;
    while i < count
      invariant i <= count
      invariant phoff as int + i as int * RowSize(wide) <= |file|
      invariant Scanned(RowsAt(file, phoff as int, i as int, wide, little), file, s)
    {
      RowsGrow(file, phoff as int, i as int, count as int, wide, little);
      var at := phoff + i * phsize;
      var kind, offset, address, size, memory := Fields(reader, at, wide);
      var taken := Take(reader, RowsAt(file, phoff as int, i as int, wide, little),
                          kind, offset, address, size, memory, s);
      if taken.Err? {
        RowsPrefix(file, phoff as int, i as int + 1, count as int, wide, little);
        RefusedStays(RowsAt(file, phoff as int, count as int, wide, little), i as int + 1, file);
        return Err(taken.error);
      }
      s := taken.value;
      i := i + 1;
    }
    return Ok(s);
  }

  lemma ScannedNone(file: Bytes)
    ensures Scanned([], file, Segments([], None, None))
  {
  }

  lemma RowsNone(file: Bytes, at: nat, wide: bool, little: bool)
    requires at <= |file|
    ensures RowsAt(file, at, 0, wide, little) == []
  {
  }

  // ----- The dynamic table -----

  datatype Tags = Tags(table: Option<u64>, size: Option<u64>, names: seq<u64>, terminated: bool)

  predicate Holds(kept: Option<u64>, values: seq<nat>) {
    match kept
    case None => values == []
    case Some(v) => values == [v as int]
  }

  predicate SameValues(kept: seq<u64>, values: seq<nat>) {
    |kept| == |values| && forall i :: 0 <= i < |kept| ==> kept[i] as int == values[i]
  }

  /** What the code has kept after the entries `live`, none of which ends the table. */
  predicate Collected(live: seq<Entry>, t: Tags) {
    && Live(live) == |live|
    && Holds(t.table, Tagged(live, STRTAB))
    && Holds(t.size, Tagged(live, STRSZ))
    && SameValues(t.names, Tagged(live, NEEDED))
    && Tagged(live, RPATH) == [] && Tagged(live, RUNPATH) == []
  }

  /** Entries after which the file is refused, whatever follows. */
  predicate Spoiled(live: seq<Entry>) {
    && Live(live) == |live|
    && (|Tagged(live, STRTAB)| > 1 || |Tagged(live, STRSZ)| > 1
        || Tagged(live, RPATH) != [] || Tagged(live, RUNPATH) != [])
  }

  lemma TaggedMore(entries: seq<Entry>, entry: Entry, tag: nat)
    ensures Tagged(entries + [entry], tag) == Tagged(entries, tag) + if entry.tag == tag then [entry.value] else []
  {
    assert (entries + [entry])[..|entries|] == entries;
  }

  lemma {:induction false} LiveAtLeast(entries: seq<Entry>, n: nat)
    requires n <= |entries| && forall i :: 0 <= i < n ==> entries[i].tag != 0
    ensures Live(entries) >= n
    decreases n
  {
    if n > 0 {
      LiveAtLeast(entries[1..], n - 1);
    }
  }

  lemma LiveMore(entries: seq<Entry>, entry: Entry)
    requires Live(entries) == |entries| && entry.tag != 0
    ensures Live(entries + [entry]) == |entries| + 1
  {
    LiveAtLeast(entries + [entry], |entries| + 1);
  }

  lemma {:induction false} TaggedPrefix(entries: seq<Entry>, n: nat, tag: nat)
    requires n <= |entries|
    ensures Tagged(entries[..n], tag) <= Tagged(entries, tag)
    decreases |entries|
  {
    if n < |entries| {
      TaggedPrefix(entries[..|entries| - 1], n, tag);
      assert entries[..|entries| - 1][..n] == entries[..n];
    } else {
      assert entries[..n] == entries;
    }
  }

  lemma SpoiledIsUnfit(entries: seq<Entry>, n: nat)
    requires n <= |entries| && Spoiled(entries[..n])
    ensures !EntriesFit(entries)
  {
    hide Tagged;
    var live := entries[..Live(entries)];
    forall i | 0 <= i < n
      ensures entries[i].tag != 0
    {
      assert entries[..n][i] == entries[i];
    }
    LiveAtLeast(entries, n);
    assert live[..n] == entries[..n];
    TaggedPrefix(live, n, STRTAB);
    TaggedPrefix(live, n, STRSZ);
    TaggedPrefix(live, n, RPATH);
    TaggedPrefix(live, n, RUNPATH);
  }

  /** One entry of the dynamic table that does not end it, taken into account. */
  method Collect(ghost live: seq<Entry>, tag: u64, value: u64, t: Tags) returns (r: Result<Tags, Problem>)
    requires Collected(live, t) && tag != 0
    ensures
      var more := live + [Entry(tag as int, value as int)];
      if r.Ok? then Collected(more, r.value) && r.value.terminated == t.terminated else Spoiled(more)
  {
    hide Tagged, Live;
    ghost var entry := Entry(tag as int, value as int);
    LiveMore(live, entry);
    TaggedMore(live, entry, NEEDED);
    TaggedMore(live, entry, STRTAB);
    TaggedMore(live, entry, STRSZ);
    TaggedMore(live, entry, RPATH);
    TaggedMore(live, entry, RUNPATH);
    if tag == 1 {
      return Ok(t.(names := t.names + [value]));
    } else if tag == 5 {
      if t.table.Some? {
        return Err(DuplicateStringTable);
      }
      return Ok(t.(table := Some(value)));
    } else if tag == 10 {
      if t.size.Some? {
        return Err(DuplicateStringSize);
      }
      return Ok(t.(size := Some(value)));
    } else if tag == 15 || tag == 29 {
      return Err(RuntimeSearchPath);
    }
    return Ok(t);
  }

  lemma EntriesGrow(file: Bytes, at: nat, n: nat, total: nat, wide: bool, little: bool)
    requires n < total && at + total * (2 * Word(wide)) <= |file|
    ensures (n + 1) * (2 * Word(wide)) <= total * (2 * Word(wide))
    ensures
      at + n * (2 * Word(wide)) + 2 * Word(wide) <= |file| &&
      EntriesAt(file, at, n + 1, wide, little)
      == EntriesAt(file, at, n, wide, little) + [EntryAt(file, at + n * (2 * Word(wide)), wide, little)]
  {
  }

  lemma {:induction false} EntriesPrefix(file: Bytes, at: nat, n: nat, total: nat, wide: bool, little: bool)
    requires n <= total && at + total * (2 * Word(wide)) <= |file|
    ensures at + n * (2 * Word(wide)) <= |file|
    ensures EntriesAt(file, at, n, wide, little) == EntriesAt(file, at, total, wide, little)[..n]
    decreases total - n
  {
    hide EntryAt, EntriesAt;
    if n == total {
      assert EntriesAt(file, at, n, wide, little) == EntriesAt(file, at, total, wide, little)[..n];
    } else {
      EntriesGrow(file, at, n, total, wide, little);
      EntriesPrefix(file, at, n + 1, total, wide, little);
    }
  }

  /** The table ends at entry `n`, and `t` is what came before. */
  predicate Ended(entries: seq<Entry>, t: Tags) {
    if t.terminated then Live(entries) < |entries| && Collected(entries[..Live(entries)], t)
    else Live(entries) == |entries| && Collected(entries, t)
  }

  lemma EndsHere(entries: seq<Entry>, n: nat, t: Tags)
    requires n < |entries| && Collected(entries[..n], t) && entries[n].tag == 0
    ensures Ended(entries, t.(terminated := true))
  {
    hide Tagged;
    forall i | 0 <= i < n
      ensures entries[i].tag != 0
    {
      assert entries[..n][i] == entries[i];
    }
    assert Live(entries) == n;
  }

  /** The loop over the dynamic table. */
  method Walk(reader: Reader, offset: u64, count: u64, wide: bool) returns (r: Result<Tags, Problem>)
    requires reader.Valid() && count <= 65536
    requires offset as int + count as int * (2 * Word(wide)) <= |reader.bytes|
    ensures
      var entries := EntriesAt(reader.bytes, offset as int, count as int, wide, reader.little);
      if r.Ok? then Ended(entries, r.value) else !EntriesFit(entries)
  {
    hide EntriesAt, Collected, Spoiled, EntriesFit, Ended, Field;
    ghost var file, little := reader.bytes, reader.little;
    ghost var entries := EntriesAt(file, offset as int, count as int, wide, little);
    var width: u64 := if wide then 8 else 4;
    var t := Tags(None, None, [], false);
    CollectedNone();
    var i: u64 := 0;
    assert entries[..0] == [];
    while i < count
      invariant i <= count && !t.terminated
      invariant Collected(entries[..i], t)
    {
      EntriesGrow(file, offset as int, i as int, count as int, wide, little);
      EntriesPrefix(file, offset as int, i as int + 1, count as int, wide, little);
      EntriesPrefix(file, offset as int, i as int, count as int, wide, little);
      var at := offset + i * width * 2;
      var tag := reader.Number(at, width);
      var value := reader.Number(at + width, width);
      assert entries[i] == Entry(tag.value as int, value.value as int);
      assert entries[..i] + [entries[i]] == entries[..i + 1];
      if tag.value == 0 {
        EndsHere(entries, i as int, t);
        return Ok(t.(terminated := true));
      }
      var taken := Collect(entries[..i], tag.value, value.value, t);
      if taken.Err? {
        SpoiledIsUnfit(entries, i as int + 1);
        return Err(taken.error);
      }
      t := taken.value;
      i := i + 1;
    }
    assert entries[..i] == entries;
    NeverEnds(entries, t);
    return Ok(t);
  }

  lemma NeverEnds(entries: seq<Entry>, t: Tags)
    requires Collected(entries, t) && !t.terminated
    ensures Ended(entries, t)
  {
  }

  lemma CollectedNone()
    ensures Collected([], Tags(None, None, [], false))
  {
  }

  // ----- The string table -----

  lemma {:induction false} CoveringPrefix(loads: seq<Row>, n: nat, address: nat, size: nat)
    requires n <= |loads|
    ensures Covering(loads[..n], address, size) <= Covering(loads, address, size)
    decreases |loads|
  {
    if n < |loads| {
      CoveringPrefix(loads[..|loads| - 1], n, address, size);
      assert loads[..|loads| - 1][..n] == loads[..n];
    } else {
      assert loads[..n] == loads;
    }
  }

  /** Where the one segment that holds the string table puts it. */
  method Locate(reader: Reader, ghost rows: seq<Row>, loads: seq<Load>, address: u64, size: u64)
    returns (r: Result<u64, Problem>)
    requires reader.Valid() && Keeps(loads, rows)
    requires forall row :: row in rows ==> row.kind == LOAD && RowFits(row, |reader.bytes|)
    ensures
      var some := Covering(rows, address as int, size as int);
      if r.Ok? then |some| == 1 && r.value as int == some[0].offset + (address as int - some[0].address)
      else |some| != 1
  {
    hide Covering;
    var found: Option<u64> := None;
    var i := 0;
    CoveringNone(rows, address as int, size as int);
    while i < |loads|
      invariant 0 <= i <= |loads|
      invariant
        var some := Covering(rows[..i], address as int, size as int);
        match found
        case None => some == []
        case Some(at) => |some| == 1 && at as int == some[0].offset + (address as int - some[0].address)
    {
      assert rows[..i + 1] == rows[..i] + [rows[i]];
      CoveringMore(rows[..i], rows[i], address as int, size as int);
      var load := loads[i];
      assert Matches(load, rows[i]) && rows[i] in rows;
      var relative := CheckedSub(address, load.address);
      if relative.Some? {
        var end := CheckedAdd(relative.value, size);
        if end.Some? && end.value <= load.size {
          if found.Some? {
            CoveringPrefix(rows, i + 1, address as int, size as int);
            return Err(AmbiguousStrings);
          }
          found := Some(load.offset + relative.value);
        }
      }
      i := i + 1;
    }
    assert rows[..i] == rows;
    return if found.Some? then Ok(found.value) else Err(StringsNotInFile);
  }

  lemma CoveringNone(rows: seq<Row>, address: nat, size: nat)
    ensures Covering(rows[..0], address, size) == []
  {
  }

  lemma {:induction false} NamesPrefix(strings: Bytes, at: seq<nat>, n: nat)
    requires n <= |at| && Names(strings, at[..n]) == None
    ensures Names(strings, at) == None
    decreases |at|
  {
    if n < |at| {
      assert at[..|at| - 1][..n] == at[..n];
      NamesPrefix(strings, at[..|at| - 1], n);
    } else {
      assert at[..n] == at;
    }
  }

  lemma NamesMore(strings: Bytes, at: seq<nat>, i: nat)
    requires i < |at|
    ensures Names(strings, at[..i + 1])
         == if Names(strings, at[..i]).Some? && Name(strings, at[i]).Some?
            then Some(Inserted(Names(strings, at[..i]).value, Name(strings, at[i]).value)) else None
  {
    assert at[..i + 1][..i] == at[..i];
  }

  /** The loop over the needed names. */
  method Gather(strings: Bytes, names: seq<u64>, ghost at: seq<nat>) returns (r: Result<seq<Bytes>, Problem>)
    requires SameValues(names, at)
    ensures Names(strings, at) == if r.Ok? then Some(r.value) else None
  {
    hide Names, CString, Inserted;
    var needed: seq<Bytes> := [];
    NamesNone(strings, at);
    var i := 0;
    while i < |names|
      invariant 0 <= i <= |names|
      invariant Names(strings, at[..i]) == Some(needed)
    {
      NamesMore(strings, at, i);
      if names[i] as int > |strings| {
        NamesPrefix(strings, at, i + 1);
        return Err(NameOutsideTable);
      }
      var name := String(strings[names[i]..]);
      if name.Err? || !Soname(name.value) {
        NamesPrefix(strings, at, i + 1);
        return Err(if name.Err? then name.error else NotASoname);
      }
      needed := Inserted(needed, name.value);
      i := i + 1;
    }
    assert at[..i] == at;
    return Ok(needed);
  }

  lemma NamesNone(strings: Bytes, at: seq<nat>)
    ensures Names(strings, at[..0]) == Some([])
  {
  }

  // ----- The whole inventory -----

  /** The checks of the identification and of the header, and where the program
      headers are. */
  method Open(reader: Reader, wide: bool) returns (r: Result<(u64, u64, u64), Problem>)
    requires reader.Valid()
    ensures
      var file, little := reader.bytes, reader.little;
      if r.Ok? then
        && HeaderFits(file, wide, little)
        && r.value.0 as int == Table(file, wide, little)
        && r.value.1 as int == RowSize(wide)
        && r.value.2 as int == Count(file, wide, little)
      else !HeaderFits(file, wide, little)
  {
    hide Field;
    var header: u64 := if wide then 64 else 52;
    var range := reader.Range(0, header);
    if range.Err? {
      return Err(range.error);
    }
    var kind := reader.Number(16, 2);
    var version := reader.Number(20, 4);
    if (kind.value != 2 && kind.value != 3) || version.value != 1 {
      return Err(NotAnImage);
    }
    var phoff := reader.Number(if wide then 32 else 28, if wide then 8 else 4);
    var phsize := reader.Number(if wide then 54 else 42, 2);
    var count := reader.Number(if wide then 56 else 44, 2);
    if count.value == 0 || count.value > 4096 || phsize.value != if wide then 56 else 32 {
      return Err(BadProgramTable);
    }
    var table := reader.Range(phoff.value, phsize.value * count.value);
    if table.Err? {
      return Err(table.error);
    }
    return Ok((phoff.value, phsize.value, count.value));
  }

  lemma DynamicIs(file: Bytes, rows: seq<Row>, offset: nat, size: nat, wide: bool, little: bool)
    requires RowsFit(rows, |file|) && |OfKind(rows, DYNAMIC)| == 1
    requires OfKind(rows, DYNAMIC)[0].offset == offset && OfKind(rows, DYNAMIC)[0].size == size
    requires size % (2 * Word(wide)) == 0 && size / (2 * Word(wide)) <= 65536
    ensures offset + size / (2 * Word(wide)) * (2 * Word(wide)) <= |file|
    ensures Dynamic(file, rows, wide, little)
         == Some(EntriesAt(file, offset, size / (2 * Word(wide)), wide, little))
  {
    hide OfKind, EntriesAt;
    assert OfKind(rows, DYNAMIC)[0] in OfKind(rows, DYNAMIC);
    assert RowFits(OfKind(rows, DYNAMIC)[0], |file|);
  }

  /** Without sound entries there is no list of names. */
  lemma UnfitIsRefused(file: Bytes, rows: seq<Row>, entries: seq<Entry>)
    requires RowsFit(rows, |file|) && !EntriesFit(entries)
    ensures Needed(rows, entries, file) == None
  {
    hide EntriesFit, OfKind, Covering, Tagged, Names;
  }

  /** The rest of the inventory, once the program headers are read. */
  method Resolve(reader: Reader, ghost rows: seq<Row>, s: Segments, machine: u64, wide: bool)
    returns (r: Result<Inventory, Problem>)
    requires reader.Valid() && Scanned(rows, reader.bytes, s)
    ensures Summary(reader.bytes, rows, machine as int, wide, reader.little)
         == if r.Ok? then Some(r.value) else None
  {
    hide OfKind, Field, CString, Covering, Tagged, Names, EntriesAt, Live, Needed, EntriesFit, Collected;
    ghost var file := reader.bytes;
    if s.interpreter.None? {
      return Err(NoInterpreter);
    }
    var interpreter := s.interpreter.value;
    if !AbsolutePath(interpreter) {
      return Err(RelativeInterpreter);
    }
    if s.dynamic.None? {
      return Err(NoDynamicTable);
    }
    var (offset, size) := s.dynamic.value;
    var width: u64 := if wide then 8 else 4;
    if size % (width * 2) != 0 || size / (width * 2) > 65536 {
      return Err(BadDynamicSize);
    }
    var count := size / (width * 2);
    DynamicIs(file, rows, offset as int, size as int, wide, reader.little);
    var walked := Walk(reader, offset, count, wide);
    ghost var entries := EntriesAt(file, offset as int, count as int, wide, reader.little);
    if walked.Err? {
      UnfitIsRefused(file, rows, entries);
      return Err(walked.error);
    }
    var needed := Finish(reader, rows, entries, s.loads, walked.value);
    if needed.Err? {
      return Err(needed.error);
    }
    return Ok(Inventory(machine as int, wide, reader.little, interpreter, needed.value));
  }

  method Finish(reader: Reader, ghost rows: seq<Row>, ghost entries: seq<Entry>, loads: seq<Load>, t: Tags)
    returns (r: Result<seq<Bytes>, Problem>)
    requires reader.Valid() && RowsFit(rows, |reader.bytes|) && Keeps(loads, OfKind(rows, LOAD))
    requires Ended(entries, t)
    ensures Needed(rows, entries, reader.bytes) == if r.Ok? then Some(r.value) else None
  {
    hide OfKind, CString, Covering, Tagged, Names, Live;
    if !t.terminated || t.names == [] {
      return Err(MissingImports);
    }
    ghost var live := entries[..Live(entries)];
    if t.table.None? {
      return Err(NoStringTable);
    }
    if t.size.None? {
      return Err(NoStringSize);
    }
    var at := Locate(reader, OfKind(rows, LOAD), loads, t.table.value, t.size.value);
    if at.Err? {
      return Err(at.error);
    }
    ghost var some := Covering(OfKind(rows, LOAD), t.table.value as int, t.size.value as int);
    assert some[0] in OfKind(rows, LOAD) && RowFits(some[0], |reader.bytes|);
    var strings := reader.Range(at.value, t.size.value);
    r := Gather(strings.value, t.names, Tagged(live, NEEDED));
  }

  /** `inspect`: exactly the files that have a description, and the description. */
  method Inspect(bytes: Bytes) returns (r: Result<Inventory, Problem>)
    requires |bytes| < LONGEST
    ensures Describe(bytes) == if r.Ok? then Some(r.value) else None
  {
    hide Field, Refused, Scanned, Summary, RowsAt, Table, Count;
    if |bytes| < 16 || bytes[..4] != [0x7F, 0x45, 0x4C, 0x46] || bytes[6] != 1 {
      return Err(BadIdentification);
    }
    if bytes[4] != 1 && bytes[4] != 2 {
      return Err(BadClass);
    }
    if bytes[5] != 1 && bytes[5] != 2 {
      return Err(BadEncoding);
    }
    var wide, reader := bytes[4] == 2, Reader(bytes, bytes[5] == 1);
    var header := Open(reader, wide);
    if header.Err? {
      return Err(header.error);
    }
    var machine := reader.Number(18, 2);
    var (phoff, phsize, count) := header.value;
    var scanned := Scan(reader, phoff, phsize, count, wide);
    ghost var rows := RowsAt(bytes, phoff as int, count as int, wide, reader.little);
    if scanned.Err? {
      RefusedIsRefused(rows, bytes, machine.value as int, wide, reader.little);
      return Err(scanned.error);
    }
    ScannedFits(rows, bytes, scanned.value);
    r := Resolve(reader, rows, scanned.value, machine.value, wide);
  }

  lemma ScannedFits(rows: seq<Row>, file: Bytes, s: Segments)
    requires Scanned(rows, file, s)
    ensures RowsFit(rows, |file|)
  {
  }
}
