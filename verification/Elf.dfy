/** What `elf_imports.rs` accepts and reports, as a function of the file: the fields
    of the System V gABI's header, program header and dynamic table (chapters 4
    and 5) read over unbounded numbers. `ElfReader.Inspect` is the code itself. */
module Elf {
  import opened Ordered
  import opened Outcome
  import opened Slices
  import opened Utf8

  /** One more than the largest 64-bit address. */
  const ADDRESSES: nat := 0x1_0000_0000_0000_0000

  // ----- Numbers -----

  /** 256 to the power `n`. */
  function Power(n: nat): nat {
    if n == 0 then 1 else 256 * Power(n - 1)
  }

  function BigEndian(b: Bytes): nat {
    if b == [] then 0 else BigEndian(b[..|b| - 1]) * 256 + b[|b| - 1]
  }

  function LittleEndian(b: Bytes): nat {
    if b == [] then 0 else b[0] + 256 * LittleEndian(b[1..])
  }

  function Num(b: Bytes, little: bool): nat {
    if little then LittleEndian(b) else BigEndian(b)
  }

  function Field(file: Bytes, at: nat, width: nat, little: bool): nat
    requires at + width <= |file|
  {
    Num(file[at..at + width], little)
  }

  // ----- Names in the file -----

  /** Where the first zero byte stands, or the length when there is none. */
  function Terminator(b: Bytes): (n: nat)
    ensures n <= |b| && 0 !in b[..n] && (n < |b| ==> b[n] == 0)
  {
    First(b, 0 as Byte)
  }

  predicate Graphic(b: Byte) {
    0x21 <= b <= 0x7E
  }

  /** A zero-terminated name of 1 to 4096 visible ASCII characters. */
  function CString(b: Bytes): Option<Bytes> {
    var end := Terminator(b);
    if end < |b| && 0 < end <= 4096 && forall i :: 0 <= i < end ==> Graphic(b[i]) then Some(b[..end]) else None
  }

  const SLASH: Byte := 0x2F
  const DOT: Byte := 0x2E

  function Parts(text: Bytes): (parts: seq<Bytes>)
    ensures parts != []
  {
    if text == [] then [[]]
    else
      var rest := Parts(text[1..]);
      if text[0] == SLASH then [[]] + rest else [[text[0]] + rest[0]] + rest[1..]
  }

  predicate AbsolutePath(text: Bytes) {
    text != [] && text[0] == SLASH && [DOT, DOT] !in Parts(text)
  }

  predicate Soname(text: Bytes) {
    SLASH !in text && text != [DOT] && text != [DOT, DOT]
  }

  // ----- Tables -----

  /** A program header: the fields that are read. */
  datatype Row = Row(kind: nat, offset: nat, address: nat, size: nat, memory: nat)

  /** A row of the dynamic table. */
  datatype Entry = Entry(tag: nat, value: nat)

  datatype Inventory = Inventory(machine: nat, wide: bool, little: bool, interpreter: Bytes, needed: seq<Bytes>)

  const LOAD: nat := 1
  const DYNAMIC: nat := 2
  const INTERP: nat := 3

  const NEEDED: nat := 1
  const STRTAB: nat := 5
  const STRSZ: nat := 10
  const RPATH: nat := 15
  const RUNPATH: nat := 29

  function Word(wide: bool): nat {
    if wide then 8 else 4
  }

  function HeaderSize(wide: bool): nat {
    if wide then 64 else 52
  }

  function RowSize(wide: bool): nat {
    if wide then 56 else 32
  }

  function RowAt(file: Bytes, at: nat, wide: bool, little: bool): Row
    requires at + RowSize(wide) <= |file|
  {
    var w := Word(wide);
    Row(
      Field(file, at, 4, little),
      Field(file, at + if wide then 8 else 4, w, little),
      Field(file, at + if wide then 16 else 8, w, little),
      Field(file, at + if wide then 32 else 16, w, little),
      Field(file, at + if wide then 40 else 20, w, little))
  }

  function RowsAt(file: Bytes, at: nat, n: nat, wide: bool, little: bool): (rows: seq<Row>)
    requires at + n * RowSize(wide) <= |file|
    ensures |rows| == n
  {
    if n == 0 then []
    else RowsAt(file, at, n - 1, wide, little) + [RowAt(file, at + (n - 1) * RowSize(wide), wide, little)]
  }

  function EntryAt(file: Bytes, at: nat, wide: bool, little: bool): Entry
    requires at + 2 * Word(wide) <= |file|
  {
    Entry(Field(file, at, Word(wide), little), Field(file, at + Word(wide), Word(wide), little))
  }

  function EntriesAt(file: Bytes, at: nat, n: nat, wide: bool, little: bool): (entries: seq<Entry>)
    requires at + n * (2 * Word(wide)) <= |file|
    ensures |entries| == n
  {
    if n == 0 then []
    else EntriesAt(file, at, n - 1, wide, little) + [EntryAt(file, at + (n - 1) * (2 * Word(wide)), wide, little)]
  }

  function OfKind(rows: seq<Row>, kind: nat): (some: seq<Row>)
    ensures forall r :: r in some ==> r in rows && r.kind == kind
  {
    if rows == [] then []
    else
      var last := rows[|rows| - 1];
      OfKind(rows[..|rows| - 1], kind) + if last.kind == kind then [last] else []
  }

  /** The values of the entries with a tag. */
  function Tagged(entries: seq<Entry>, tag: nat): seq<nat> {
    if entries == [] then []
    else
      var last := entries[|entries| - 1];
      Tagged(entries[..|entries| - 1], tag) + if last.tag == tag then [last.value] else []
  }

  /** The entries before the first with tag 0; all when there is none. */
  function Live(entries: seq<Entry>): (n: nat)
    ensures n <= |entries| && (n < |entries| ==> entries[n].tag == 0)
    ensures forall i :: 0 <= i < n ==> entries[i].tag != 0
  {
    if entries == [] || entries[0].tag == 0 then 0 else 1 + Live(entries[1..])
  }

  predicate RowFits(row: Row, length: nat) {
    && row.offset + row.size <= length
    && (row.kind == LOAD ==> row.size <= row.memory && row.address + row.size < ADDRESSES)
  }

  predicate RowsFit(rows: seq<Row>, length: nat) {
    forall r :: r in rows ==> RowFits(r, length)
  }

  /** The `size` bytes at `address` are inside the file part of the segment. */
  predicate Covers(load: Row, address: nat, size: nat) {
    load.address <= address && address - load.address + size <= load.size
  }

  function Covering(loads: seq<Row>, address: nat, size: nat): (some: seq<Row>)
    ensures forall r :: r in some ==> r in loads && Covers(r, address, size)
  {
    if loads == [] then []
    else
      var last := loads[|loads| - 1];
      Covering(loads[..|loads| - 1], address, size) + if Covers(last, address, size) then [last] else []
  }

  lemma OfKindMore(rows: seq<Row>, row: Row, kind: nat)
    ensures OfKind(rows + [row], kind) == OfKind(rows, kind) + if row.kind == kind then [row] else []
  {
    assert (rows + [row])[..|rows|] == rows;
  }

  lemma FitsMore(rows: seq<Row>, row: Row, length: nat)
    ensures RowsFit(rows + [row], length) <==> RowsFit(rows, length) && RowFits(row, length)
  {
    hide RowFits;
    forall r | r in rows
      ensures r in rows + [row]
    {
    }
    assert (rows + [row])[|rows|] == row;
  }

  lemma CoveringMore(loads: seq<Row>, row: Row, address: nat, size: nat)
    ensures Covering(loads + [row], address, size)
         == Covering(loads, address, size) + if Covers(row, address, size) then [row] else []
  {
    assert (loads + [row])[..|loads|] == loads;
  }

  // ----- Imports -----

  function Name(strings: Bytes, at: nat): Option<Bytes> {
    if at > |strings| then None
    else
      var name := CString(strings[at..]);
      if name.Some? && Soname(name.value) then name else None
  }

  function Names(strings: Bytes, at: seq<nat>): Option<seq<Bytes>> {
    if at == [] then Some([])
    else
      var names, name := Names(strings, at[..|at| - 1]), Name(strings, at[|at| - 1]);
      if names.Some? && name.Some? then Some(Inserted(names.value, name.value)) else None
  }

  /** The one program that the interpreter segment names. */
  function Interpreter(rows: seq<Row>, file: Bytes): Option<Bytes>
    requires RowsFit(rows, |file|)
  {
    var some := OfKind(rows, INTERP);
    if |some| != 1 then None
    else
      var text := CString(file[some[0].offset..some[0].offset + some[0].size]);
      if text.Some? && AbsolutePath(text.value) then text else None
  }

  predicate EntriesFit(entries: seq<Entry>) {
    var live := entries[..Live(entries)];
    && Live(entries) < |entries|
    && Tagged(live, RPATH) == [] && Tagged(live, RUNPATH) == []
    && |Tagged(live, STRTAB)| == 1 && |Tagged(live, STRSZ)| == 1 && Tagged(live, NEEDED) != []
  }

  /** The names of the needed libraries, sorted and without duplicates. */
  function Needed(rows: seq<Row>, entries: seq<Entry>, file: Bytes): Option<seq<Bytes>>
    requires RowsFit(rows, |file|)
  {
    if !EntriesFit(entries) then None
    else
      var live := entries[..Live(entries)];
      var address, size := Tagged(live, STRTAB)[0], Tagged(live, STRSZ)[0];
      var some := Covering(OfKind(rows, LOAD), address, size);
      if |some| != 1 then None
      else
        var at := some[0].offset + (address - some[0].address);
        Names(file[at..at + size], Tagged(live, NEEDED))
  }

  // ----- Files -----

  predicate Identified(file: Bytes) {
    && |file| >= 16 && file[..4] == [0x7F, 0x45, 0x4C, 0x46] && file[6] == 1
    && (file[4] == 1 || file[4] == 2) && (file[5] == 1 || file[5] == 2)
  }

  /** An executable or shared image, with a program header table inside the file. */
  predicate HeaderFits(file: Bytes, wide: bool, little: bool) {
    && |file| >= HeaderSize(wide)
    && (Field(file, 16, 2, little) == 2 || Field(file, 16, 2, little) == 3)
    && Field(file, 20, 4, little) == 1
    && Field(file, if wide then 54 else 42, 2, little) == RowSize(wide)
    && 0 < Count(file, wide, little) <= 4096
    && Table(file, wide, little) + Count(file, wide, little) * RowSize(wide) <= |file|
  }

  function Table(file: Bytes, wide: bool, little: bool): nat
    requires |file| >= HeaderSize(wide)
  {
    Field(file, if wide then 32 else 28, Word(wide), little)
  }

  function Count(file: Bytes, wide: bool, little: bool): nat
    requires |file| >= HeaderSize(wide)
  {
    Field(file, if wide then 56 else 44, 2, little)
  }

  /** The rows of the file's dynamic table; none when it has no sound table. */
  function Dynamic(file: Bytes, rows: seq<Row>, wide: bool, little: bool): Option<seq<Entry>>
    requires RowsFit(rows, |file|)
  {
    var some := OfKind(rows, DYNAMIC);
    var w := 2 * Word(wide);
    if |some| != 1 || some[0].size % w != 0 || some[0].size / w > 65536 then None
    else Some(EntriesAt(file, some[0].offset, some[0].size / w, wide, little))
  }

  /** What a file imports; none when it is refused. */
  function Describe(file: Bytes): Option<Inventory> {
    if !Identified(file) then None
    else
      var wide, little := file[4] == 2, file[5] == 1;
      if !HeaderFits(file, wide, little) then None
      else
        var rows := RowsAt(file, Table(file, wide, little), Count(file, wide, little), wide, little);
        if !RowsFit(rows, |file|) then None
        else Summary(file, rows, Field(file, 18, 2, little), wide, little)
  }

  function Summary(file: Bytes, rows: seq<Row>, machine: nat, wide: bool, little: bool): Option<Inventory>
    requires RowsFit(rows, |file|)
  {
    var interpreter, entries := Interpreter(rows, file), Dynamic(file, rows, wide, little);
    if interpreter.None? || entries.None? then None
    else
      var needed := Needed(rows, entries.value, file);
      if needed.None? then None
      else Some(Inventory(machine, wide, little, interpreter.value, needed.value))
  }

  // ----- What the list of names is -----

  /** The names are in order, each once, and they are exactly the names of the
      entries. */
  lemma {:induction false} NamesAreTheSet(strings: Bytes, at: seq<nat>)
    requires Names(strings, at).Some?
    ensures Sorted(Names(strings, at).value)
    ensures forall t :: t in Names(strings, at).value <==> exists i :: 0 <= i < |at| && Name(strings, at[i]) == Some(t)
    decreases |at|
  {
    hide Name, Less, Inserted;
    if at != [] {
      var init, last := at[..|at| - 1], at[|at| - 1];
      NamesAreTheSet(strings, init);
      InsertedIsSorted(Names(strings, init).value, Name(strings, last).value);
      forall t
        ensures t in Names(strings, at).value <==> exists i :: 0 <= i < |at| && Name(strings, at[i]) == Some(t)
      {
        if t in Names(strings, at).value {
          if t in Names(strings, init).value {
            var i :| 0 <= i < |init| && Name(strings, init[i]) == Some(t);
            assert at[i] == init[i];
          } else {
            assert at[|at| - 1] == last;
          }
        }
        if i :| 0 <= i < |at| && Name(strings, at[i]) == Some(t) {
          assert i < |init| ==> init[i] == at[i];
        }
      }
    }
  }
}
