/** ELF images written in either class and either byte order, and what the reader
    makes of them. */
module ElfImage {
  import opened Outcome
  import opened Slices
  import opened Utf8
  import opened Elf

  // ----- Numbers -----

  /** The low `width` bytes of a number. */
  function Put(v: nat, width: nat, little: bool): (b: Bytes)
    ensures |b| == width
  {
    if width == 0 then []
    else if little then [v % 256] + Put(v / 256, width - 1, little)
    else Put(v / 256, width - 1, little) + [v % 256]
  }

  lemma {:induction false} NumPut(v: nat, width: nat, little: bool)
    requires v < Power(width)
    ensures Num(Put(v, width, little), little) == v
    decreases width
  {
    if width > 0 {
      NumPut(v / 256, width - 1, little);
      var b := Put(v, width, little);
      if little {
        assert b[1..] == Put(v / 256, width - 1, little);
      } else {
        assert b[..width - 1] == Put(v / 256, width - 1, little);
      }
    }
  }

  lemma FieldPut(file: Bytes, at: nat, v: nat, width: nat, little: bool)
    requires Stands(file, at, Put(v, width, little)) && v < Power(width)
    ensures at + width <= |file| && Field(file, at, width, little) == v
  {
    NumPut(v, width, little);
  }

  // ----- Images -----

  /** Where a segment is: the bytes `start..start + size` of the contents; those bytes from
      the first on and everything before them, so that it starts with the file and
      `address` is where its contents are; or the program headers. */
  datatype Place = Contents | Leading | Headers

  /** A segment. A dynamic segment is the dynamic table, wherever it says it is. */
  datatype Segment = Segment(kind: nat, place: Place, start: nat, size: nat, address: nat, memory: nat,
                             flags: nat, physical: nat, align: nat)

  /** Header fields that are not read. */
  datatype Unread = Unread(ident: Bytes, entry: nat, sections: nat, flags: nat, headerSize: nat,
                           sectionSize: nat, sectionCount: nat, sectionNames: nat)

  datatype Image = Image(kind: nat, machine: nat, unread: Unread, segments: seq<Segment>, entries: seq<Entry>,
                         contents: Bytes)

  /** Where the dynamic table starts: after the header and the program headers. */
  function TableStart(im: Image, wide: bool): nat {
    HeaderSize(wide) + |im.segments| * RowSize(wide)
  }

  function TableSize(im: Image, wide: bool): nat {
    |im.entries| * (2 * Word(wide))
  }

  function ContentsStart(im: Image, wide: bool): nat {
    TableStart(im, wide) + TableSize(im, wide)
  }

  /** The program header of a segment. */
  function Placed(im: Image, s: Segment, wide: bool): Row {
    var base := ContentsStart(im, wide);
    if s.kind == DYNAMIC then Row(s.kind, TableStart(im, wide), s.address, TableSize(im, wide), s.memory)
    else if s.place.Headers? then
      Row(s.kind, HeaderSize(wide), s.address, |im.segments| * RowSize(wide), s.memory)
    else if s.place.Leading? && s.address >= base then
      Row(s.kind, 0, s.address - base, base + s.size, base + s.memory)
    else Row(s.kind, base + s.start, s.address, s.size, s.memory)
  }

  function PlacedAll(im: Image, segments: seq<Segment>, wide: bool): (rows: seq<Row>)
    ensures |rows| == |segments|
  {
    if segments == [] then []
    else
      var n := |segments| - 1;
      PlacedAll(im, segments[..n], wide) + [Placed(im, segments[n], wide)]
  }

  predicate RowFitsWord(r: Row, wide: bool) {
    var limit := Power(Word(wide));
    r.kind < Power(4) && r.offset < limit && r.address < limit && r.size < limit && r.memory < limit
  }

  /** The interpreter is among the contents, and so is the string table: not in what leads
      a segment. Program headers are not loaded by a segment of their own. */
  predicate WellPlaced(im: Image, s: Segment, wide: bool) {
    var base := ContentsStart(im, wide);
    && (s.place.Leading? ==>
          && s.kind != DYNAMIC && s.kind != INTERP && s.start == 0 && base <= s.address
          && forall e :: e in im.entries && e.tag == STRTAB ==> !(s.address - base <= e.value < s.address))
    && (s.place.Headers? ==> s.kind != DYNAMIC && s.kind != INTERP && s.kind != LOAD)
  }

  /** Every number that is read fits its field in the class. */
  predicate Representable(im: Image, wide: bool) {
    && (forall s :: s in im.segments ==> WellPlaced(im, s, wide))
    && im.kind < Power(2) && im.machine < Power(2) && |im.segments| < Power(2) && |im.unread.ident| == 9
    && (forall s :: s in im.segments ==> RowFitsWord(Placed(im, s, wide), wide))
    && (forall e :: e in im.entries ==> e.tag < Power(Word(wide)) && e.value < Power(Word(wide)))
  }

  // ----- Writing -----

  function Ident(im: Image, wide: bool, little: bool): (b: Bytes)
    requires |im.unread.ident| == 9
    ensures |b| == 16
  {
    [0x7F, 0x45, 0x4C, 0x46, if wide then 2 else 1, if little then 1 else 2, 1] + im.unread.ident
  }

  /** The first, second and last part of the header. */
  function HeaderStart(im: Image, wide: bool, little: bool): Bytes
    requires |im.unread.ident| == 9
  {
    Ident(im, wide, little) + Put(im.kind, 2, little) + Put(im.machine, 2, little) + Put(1, 4, little)
  }

  function HeaderMiddle(im: Image, wide: bool, little: bool): Bytes {
    var w := Word(wide);
    Put(im.unread.entry, w, little) + Put(HeaderSize(wide), w, little)
    + Put(im.unread.sections, w, little) + Put(im.unread.flags, 4, little)
  }

  function HeaderEnd(im: Image, wide: bool, little: bool): Bytes {
    Put(im.unread.headerSize, 2, little) + Put(RowSize(wide), 2, little) + Put(|im.segments|, 2, little)
    + (Put(im.unread.sectionSize, 2, little) + Put(im.unread.sectionCount, 2, little)
       + Put(im.unread.sectionNames, 2, little))
  }

  function Header(im: Image, wide: bool, little: bool): (b: Bytes)
    requires |im.unread.ident| == 9
    ensures |b| == HeaderSize(wide)
  {
    HeaderStart(im, wide, little) + HeaderMiddle(im, wide, little) + HeaderEnd(im, wide, little)
  }

  function RowBytes(r: Row, s: Segment, wide: bool, little: bool): (b: Bytes)
    ensures |b| == RowSize(wide)
  {
    if wide then
      (Put(r.kind, 4, little) + Put(s.flags, 4, little) + Put(r.offset, 8, little) + Put(r.address, 8, little))
      + (Put(s.physical, 8, little) + Put(r.size, 8, little) + Put(r.memory, 8, little) + Put(s.align, 8, little))
    else
      (Put(r.kind, 4, little) + Put(r.offset, 4, little) + Put(r.address, 4, little) + Put(s.physical, 4, little))
      + (Put(r.size, 4, little) + Put(r.memory, 4, little) + Put(s.flags, 4, little) + Put(s.align, 4, little))
  }

  function RowsBytes(im: Image, segments: seq<Segment>, wide: bool, little: bool): (b: Bytes)
    ensures |b| == |segments| * RowSize(wide)
  {
    if segments == [] then []
    else
      var n := |segments| - 1;
      assert n * RowSize(wide) + RowSize(wide) == |segments| * RowSize(wide);
      RowsBytes(im, segments[..n], wide, little)
      + RowBytes(Placed(im, segments[n], wide), segments[n], wide, little)
  }

  function EntriesBytes(entries: seq<Entry>, wide: bool, little: bool): (b: Bytes)
    ensures |b| == |entries| * (2 * Word(wide))
  {
    if entries == [] then []
    else
      var n := |entries| - 1;
      assert n * (2 * Word(wide)) + 2 * Word(wide) == |entries| * (2 * Word(wide));
      EntriesBytes(entries[..n], wide, little)
      + (Put(entries[n].tag, Word(wide), little) + Put(entries[n].value, Word(wide), little))
  }

  function File(im: Image, wide: bool, little: bool): Bytes
    requires |im.unread.ident| == 9
  {
    Header(im, wide, little) + RowsBytes(im, im.segments, wide, little)
    + EntriesBytes(im.entries, wide, little) + im.contents
  }

  // ----- What an image means -----

  /** A segment as a row whose file is the contents alone. */
  function Bare(s: Segment): Row {
    if s.kind == DYNAMIC || s.place.Headers? then Row(s.kind, 0, s.address, 0, s.memory)
    else Row(s.kind, s.start, s.address, s.size, s.memory)
  }

  function BareAll(segments: seq<Segment>): (rows: seq<Row>)
    ensures |rows| == |segments|
  {
    if segments == [] then []
    else BareAll(segments[..|segments| - 1]) + [Bare(segments[|segments| - 1])]
  }

  /** The interpreter and the needed libraries; none when the image is not admitted.
      Neither class nor byte order has a part in it. */
  function Meaning(im: Image): Option<(Bytes, seq<Bytes>)> {
    var rows := BareAll(im.segments);
    if im.kind != 2 && im.kind != 3 then None
    else if im.segments == [] || |im.segments| > 4096 || |im.entries| > 65536 then None
    else if !RowsFit(rows, |im.contents|) || |OfKind(rows, DYNAMIC)| != 1 then None
    else
      var interpreter, needed := Interpreter(rows, im.contents), Needed(rows, im.entries, im.contents);
      if interpreter.None? || needed.None? then None else Some((interpreter.value, needed.value))
  }

  // ----- Reading the header back -----

  lemma HeaderReads(file: Bytes, im: Image, wide: bool, little: bool)
    requires |im.unread.ident| == 9 && Stands(file, 0, Header(im, wide, little))
    requires im.kind < Power(2) && im.machine < Power(2) && |im.segments| < Power(2)
    ensures |file| >= HeaderSize(wide)
    ensures Field(file, 16, 2, little) == im.kind && Field(file, 18, 2, little) == im.machine
    ensures Field(file, 20, 4, little) == 1
    ensures Table(file, wide, little) == HeaderSize(wide) && Count(file, wide, little) == |im.segments|
    ensures Field(file, if wide then 54 else 42, 2, little) == RowSize(wide)
  {
    hide Stands, Field, Ident;
    Powers();
    var start, middle := HeaderStart(im, wide, little), HeaderMiddle(im, wide, little);
    var end := HeaderEnd(im, wide, little);
    StandsSplit(file, 0, start + middle, end);
    StandsSplit(file, 0, start, middle);
    StartReads(file, im, wide, little);
    MiddleReads(file, im, wide, little);
    EndReads(file, im, wide, little);
  }

  lemma Powers()
    ensures Power(2) == 0x1_0000 && Power(4) == 0x1_0000_0000 && Power(8) == ADDRESSES
  {
    assert Power(4) == 0x1_0000_0000;
  }

  lemma StartReads(file: Bytes, im: Image, wide: bool, little: bool)
    requires |im.unread.ident| == 9 && Stands(file, 0, HeaderStart(im, wide, little))
    requires im.kind < Power(2) && im.machine < Power(2)
    ensures 24 <= |file|
    ensures Field(file, 16, 2, little) == im.kind && Field(file, 18, 2, little) == im.machine
    ensures Field(file, 20, 4, little) == 1
  {
    hide Stands, Field, Ident;
    Powers();
    StandsFour(file, 0, Ident(im, wide, little), Put(im.kind, 2, little), Put(im.machine, 2, little),
               Put(1, 4, little));
    FieldPut(file, 16, im.kind, 2, little);
    FieldPut(file, 18, im.machine, 2, little);
    FieldPut(file, 20, 1, 4, little);
  }

  lemma MiddleReads(file: Bytes, im: Image, wide: bool, little: bool)
    requires Stands(file, 24, HeaderMiddle(im, wide, little))
    ensures 24 + 3 * Word(wide) <= |file|
    ensures Field(file, 24 + Word(wide), Word(wide), little) == HeaderSize(wide)
  {
    hide Stands, Field;
    Powers();
    var w := Word(wide);
    StandsFour(file, 24, Put(im.unread.entry, w, little), Put(HeaderSize(wide), w, little),
               Put(im.unread.sections, w, little), Put(im.unread.flags, 4, little));
    FieldPut(file, 24 + w, HeaderSize(wide), w, little);
  }

  lemma EndReads(file: Bytes, im: Image, wide: bool, little: bool)
    requires Stands(file, if wide then 52 else 40, HeaderEnd(im, wide, little)) && |im.segments| < Power(2)
    ensures |file| >= HeaderSize(wide)
    ensures Field(file, if wide then 54 else 42, 2, little) == RowSize(wide)
    ensures Field(file, if wide then 56 else 44, 2, little) == |im.segments|
  {
    hide Stands, Field;
    Powers();
    var at := if wide then 52 else 40;
    var tail := Put(im.unread.sectionSize, 2, little) + Put(im.unread.sectionCount, 2, little)
                + Put(im.unread.sectionNames, 2, little);
    StandsFour(file, at, Put(im.unread.headerSize, 2, little), Put(RowSize(wide), 2, little),
               Put(|im.segments|, 2, little), tail);
    FieldPut(file, at + 2, RowSize(wide), 2, little);
    FieldPut(file, at + 4, |im.segments|, 2, little);
  }

  // ----- Reading the tables back -----

  lemma RowReads(file: Bytes, at: nat, r: Row, s: Segment, wide: bool, little: bool)
    requires Stands(file, at, RowBytes(r, s, wide, little)) && RowFitsWord(r, wide)
    ensures at + RowSize(wide) <= |file| && RowAt(file, at, wide, little) == r
  {
    hide Stands, Field, Put, Power;
    StandsFits(file, at, RowBytes(r, s, wide, little));
    if wide {
      var a := Put(r.kind, 4, little) + Put(s.flags, 4, little) + Put(r.offset, 8, little) + Put(r.address, 8, little);
      var b := Put(s.physical, 8, little) + Put(r.size, 8, little) + Put(r.memory, 8, little) + Put(s.align, 8, little);
      StandsSplit(file, at, a, b);
      StandsFour(file, at, Put(r.kind, 4, little), Put(s.flags, 4, little), Put(r.offset, 8, little),
                 Put(r.address, 8, little));
      StandsFour(file, at + 24, Put(s.physical, 8, little), Put(r.size, 8, little), Put(r.memory, 8, little),
                 Put(s.align, 8, little));
      FieldPut(file, at, r.kind, 4, little);
      FieldPut(file, at + 8, r.offset, 8, little);
      FieldPut(file, at + 16, r.address, 8, little);
      FieldPut(file, at + 32, r.size, 8, little);
      FieldPut(file, at + 40, r.memory, 8, little);
    } else {
      var a := Put(r.kind, 4, little) + Put(r.offset, 4, little) + Put(r.address, 4, little)
              + Put(s.physical, 4, little);
      var b := Put(r.size, 4, little) + Put(r.memory, 4, little) + Put(s.flags, 4, little) + Put(s.align, 4, little);
      StandsSplit(file, at, a, b);
      StandsFour(file, at, Put(r.kind, 4, little), Put(r.offset, 4, little), Put(r.address, 4, little),
                 Put(s.physical, 4, little));
      StandsFour(file, at + 16, Put(r.size, 4, little), Put(r.memory, 4, little), Put(s.flags, 4, little),
                 Put(s.align, 4, little));
      FieldPut(file, at, r.kind, 4, little);
      FieldPut(file, at + 4, r.offset, 4, little);
      FieldPut(file, at + 8, r.address, 4, little);
      FieldPut(file, at + 16, r.size, 4, little);
      FieldPut(file, at + 20, r.memory, 4, little);
    }
  }

  lemma {:induction false} RowsRead(file: Bytes, at: nat, im: Image, segments: seq<Segment>, wide: bool, little: bool)
    requires Stands(file, at, RowsBytes(im, segments, wide, little))
    requires forall s :: s in segments ==> RowFitsWord(Placed(im, s, wide), wide)
    ensures at + |segments| * RowSize(wide) <= |file|
    ensures RowsAt(file, at, |segments|, wide, little) == PlacedAll(im, segments, wide)
    decreases |segments|
  {
    hide Stands, RowAt, RowBytes, Placed, RowFitsWord;
    StandsFits(file, at, RowsBytes(im, segments, wide, little));
    if segments != [] {
      var n := |segments| - 1;
      var s := segments[n];
      StandsSplit(file, at, RowsBytes(im, segments[..n], wide, little), RowBytes(Placed(im, s, wide), s, wide, little));
      RowsRead(file, at, im, segments[..n], wide, little);
      RowReads(file, at + n * RowSize(wide), Placed(im, s, wide), s, wide, little);
    }
  }

  lemma EntryReads(file: Bytes, at: nat, e: Entry, wide: bool, little: bool)
    requires Stands(file, at, Put(e.tag, Word(wide), little) + Put(e.value, Word(wide), little))
    requires e.tag < Power(Word(wide)) && e.value < Power(Word(wide))
    ensures at + 2 * Word(wide) <= |file| && EntryAt(file, at, wide, little) == e
  {
    hide Stands, Field, Put, Power;
    var w := Word(wide);
    StandsSplit(file, at, Put(e.tag, w, little), Put(e.value, w, little));
    FieldPut(file, at, e.tag, w, little);
    FieldPut(file, at + w, e.value, w, little);
  }

  lemma {:induction false} EntriesRead(file: Bytes, at: nat, entries: seq<Entry>, wide: bool, little: bool)
    requires Stands(file, at, EntriesBytes(entries, wide, little))
    requires forall e :: e in entries ==> e.tag < Power(Word(wide)) && e.value < Power(Word(wide))
    ensures at + |entries| * (2 * Word(wide)) <= |file|
    ensures EntriesAt(file, at, |entries|, wide, little) == entries
    decreases |entries|
  {
    hide Stands, EntriesAt, EntriesBytes, EntryAt, Put, Power;
    StandsFits(file, at, EntriesBytes(entries, wide, little));
    if entries == [] {
      NoEntries(file, at, wide, little);
    } else {
      var n, w := |entries| - 1, Word(wide);
      LastEntryBytes(entries, wide, little);
      LastEntryAt(file, at, n, wide, little);
      StandsSplit(file, at, EntriesBytes(entries[..n], wide, little),
                  Put(entries[n].tag, w, little) + Put(entries[n].value, w, little));
      EntriesRead(file, at, entries[..n], wide, little);
      assert entries[n] in entries;
      EntryReads(file, at + n * (2 * w), entries[n], wide, little);
      assert entries == entries[..n] + [entries[n]];
    }
  }

  lemma NoEntries(file: Bytes, at: nat, wide: bool, little: bool)
    requires at <= |file|
    ensures EntriesAt(file, at, 0, wide, little) == []
  {
  }

  lemma Times(n: nat, w: nat)
    ensures (n + 1) * w == n * w + w
  {
  }

  lemma LastEntryBytes(entries: seq<Entry>, wide: bool, little: bool)
    requires entries != []
    ensures
      var n, w := |entries| - 1, Word(wide);
      EntriesBytes(entries, wide, little)
      == EntriesBytes(entries[..n], wide, little) + (Put(entries[n].tag, w, little) + Put(entries[n].value, w, little))
  {
    hide Put;
  }

  lemma LastEntryAt(file: Bytes, at: nat, n: nat, wide: bool, little: bool)
    requires at + (n + 1) * (2 * Word(wide)) <= |file|
    ensures n * (2 * Word(wide)) + 2 * Word(wide) == (n + 1) * (2 * Word(wide))
    ensures EntriesAt(file, at, n + 1, wide, little)
         == EntriesAt(file, at, n, wide, little) + [EntryAt(file, at + n * (2 * Word(wide)), wide, little)]
  {
    hide EntryAt;
    Times(n, 2 * Word(wide));
  }

  // ----- The same rows, wherever the contents are -----

  /** `p` is the row `b` of the contents, in a file that has them from `base` on. */
  predicate Moved(b: Row, p: Row, base: nat) {
    || p == b.(offset := b.offset + base)
    || (&& b.kind != INTERP && b.offset == 0 && base <= b.address
        && p == Row(b.kind, 0, b.address - base, base + b.size, base + b.memory))
  }

  predicate AllMoved(bare: seq<Row>, placed: seq<Row>, base: nat) {
    |bare| == |placed| && forall i :: 0 <= i < |bare| ==> Moved(bare[i], placed[i], base)
  }

  lemma MovedMore(bare: seq<Row>, placed: seq<Row>, b: Row, p: Row, base: nat)
    requires AllMoved(bare, placed, base) && Moved(b, p, base)
    ensures AllMoved(bare + [b], placed + [p], base) && bare + [] == bare && placed + [] == placed
  {
    hide Moved;
  }

  lemma PlacedIsMoved(im: Image, s: Segment, wide: bool)
    requires (s.kind == LOAD || s.kind == INTERP) && WellPlaced(im, s, wide)
    ensures Moved(Bare(s), Placed(im, s, wide), ContentsStart(im, wide))
  {
    hide ContentsStart;
  }

  lemma {:induction false} KindsMove(im: Image, segments: seq<Segment>, wide: bool, kind: nat)
    requires (kind == LOAD || kind == INTERP) && forall s :: s in segments ==> WellPlaced(im, s, wide)
    ensures AllMoved(OfKind(BareAll(segments), kind), OfKind(PlacedAll(im, segments, wide), kind),
                     ContentsStart(im, wide))
    decreases |segments|
  {
    hide ContentsStart, OfKind, Moved, WellPlaced;
    if segments == [] {
      NoRows(kind);
    } else {
      var n := |segments| - 1;
      var s := segments[n];
      KindsMove(im, segments[..n], wide, kind);
      var placed, bare := PlacedAll(im, segments[..n], wide), BareAll(segments[..n]);
      OfKindMore(placed, Placed(im, s, wide), kind);
      OfKindMore(bare, Bare(s), kind);
      if s.kind == kind {
        PlacedIsMoved(im, s, wide);
        MovedMore(OfKind(bare, kind), OfKind(placed, kind), Bare(s), Placed(im, s, wide), ContentsStart(im, wide));
      }
      assert OfKind(bare, kind) + [] == OfKind(bare, kind) && OfKind(placed, kind) + [] == OfKind(placed, kind);
    }
  }

  lemma NoRows(kind: nat)
    ensures OfKind([], kind) == []
  {
  }

  lemma {:induction false} DynamicPlaced(im: Image, segments: seq<Segment>, wide: bool)
    ensures |OfKind(PlacedAll(im, segments, wide), DYNAMIC)| == |OfKind(BareAll(segments), DYNAMIC)|
    ensures forall r :: r in OfKind(PlacedAll(im, segments, wide), DYNAMIC) ==>
              r.offset == TableStart(im, wide) && r.size == TableSize(im, wide)
    decreases |segments|
  {
    hide ContentsStart, TableStart, TableSize, OfKind;
    if segments == [] {
      NoRows(DYNAMIC);
    } else {
      var n := |segments| - 1;
      DynamicPlaced(im, segments[..n], wide);
      OfKindMore(PlacedAll(im, segments[..n], wide), Placed(im, segments[n], wide), DYNAMIC);
      OfKindMore(BareAll(segments[..n]), Bare(segments[n]), DYNAMIC);
    }
  }

  lemma {:induction false} FitsShift(im: Image, segments: seq<Segment>, wide: bool, length: nat)
    requires length == ContentsStart(im, wide) + |im.contents|
    requires forall s :: s in segments ==> WellPlaced(im, s, wide)
    ensures RowsFit(PlacedAll(im, segments, wide), length) <==> RowsFit(BareAll(segments), |im.contents|)
    decreases |segments|
  {
    hide TableStart, TableSize, RowsFit, RowFits, WellPlaced;
    if segments == [] {
      NoneFits(length);
      NoneFits(|im.contents|);
    } else {
      var n := |segments| - 1;
      FitsShift(im, segments[..n], wide, length);
      FitsMore(PlacedAll(im, segments[..n], wide), Placed(im, segments[n], wide), length);
      FitsMore(BareAll(segments[..n]), Bare(segments[n]), |im.contents|);
      OneFits(im, segments[n], wide, length);
    }
  }

  lemma NoneFits(length: nat)
    ensures RowsFit([], length)
  {
  }

  lemma OneFits(im: Image, s: Segment, wide: bool, length: nat)
    requires length == ContentsStart(im, wide) + |im.contents| && WellPlaced(im, s, wide)
    ensures RowFits(Placed(im, s, wide), length) <==> RowFits(Bare(s), |im.contents|)
  {
    hide TableSize;
    assert TableStart(im, wide) == HeaderSize(wide) + |im.segments| * RowSize(wide);
  }

  /** The address is not in what leads a loaded segment. */
  predicate Clear(bare: seq<Row>, address: nat, base: nat, placed: seq<Row>)
    requires |bare| == |placed|
  {
    forall i :: 0 <= i < |bare| && placed[i].offset == 0 && placed[i].address < bare[i].address ==>
      !(placed[i].address <= address < bare[i].address)
  }

  lemma MovedCovers(b: Row, p: Row, base: nat, address: nat, size: nat)
    requires Moved(b, p, base)
    requires p.offset == 0 && p.address < b.address ==> !(p.address <= address < b.address)
    ensures Covers(p, address, size) <==> Covers(b, address, size)
    ensures Covers(b, address, size) ==> p.offset + (address - p.address) == base + b.offset + (address - b.address)
  {
  }

  lemma {:induction false} CoveringMoves(bare: seq<Row>, placed: seq<Row>, base: nat, address: nat, size: nat)
    requires AllMoved(bare, placed, base) && Clear(bare, address, base, placed)
    ensures AllMoved(Covering(bare, address, size), Covering(placed, address, size), base)
    ensures forall i :: 0 <= i < |Covering(bare, address, size)| ==>
              var b, p := Covering(bare, address, size)[i], Covering(placed, address, size)[i];
              p.offset + (address - p.address) == base + b.offset + (address - b.address)
    decreases |bare|
  {
    hide Moved, Covers, Covering;
    if bare == [] {
      NoLoads(address, size);
    } else {
      var n := |bare| - 1;
      var b, p := bare[n], placed[n];
      assert bare == bare[..n] + [b] && placed == placed[..n] + [p];
      CoveringMoves(bare[..n], placed[..n], base, address, size);
      CoveringMore(bare[..n], b, address, size);
      CoveringMore(placed[..n], p, address, size);
      MovedCovers(b, p, base, address, size);
      MovedMore(Covering(bare[..n], address, size), Covering(placed[..n], address, size), b, p, base);
    }
  }

  lemma NoLoads(address: nat, size: nat)
    ensures Covering([], address, size) == []
  {
  }

  /** The contents stand at the end of a file. */
  predicate Ends(file: Bytes, base: nat, contents: Bytes) {
    base + |contents| == |file| && file[base..] == contents
  }

  lemma SliceEnds(file: Bytes, base: nat, contents: Bytes, at: nat, size: nat)
    requires Ends(file, base, contents) && at + size <= |contents|
    ensures base + at + size <= |file| && file[base + at..base + at + size] == contents[at..at + size]
  {
    var there := file[base + at..base + at + size];
    forall i | 0 <= i < size
      ensures there[i] == contents[at..at + size][i]
    {
      assert contents[at + i] == file[base..][at + i];
    }
  }

  lemma InterpreterMoves(rows: seq<Row>, placed: seq<Row>, file: Bytes, base: nat, contents: Bytes)
    requires Ends(file, base, contents) && RowsFit(rows, |contents|) && RowsFit(placed, |file|)
    requires AllMoved(OfKind(rows, INTERP), OfKind(placed, INTERP), base)
    ensures Interpreter(placed, file) == Interpreter(rows, contents)
  {
    hide OfKind, Ends, CString, AbsolutePath;
    if |OfKind(rows, INTERP)| == 1 {
      var r := OfKind(rows, INTERP)[0];
      assert r in OfKind(rows, INTERP) && RowFits(r, |contents|);
      assert Moved(r, OfKind(placed, INTERP)[0], base);
      SliceEnds(file, base, contents, r.offset, r.size);
    }
  }

  lemma {:induction false} TaggedIsEntry(entries: seq<Entry>, tag: nat)
    ensures forall v :: v in Tagged(entries, tag) ==> exists e :: e in entries && e.tag == tag && e.value == v
    decreases |entries|
  {
    if entries != [] {
      var init, last := entries[..|entries| - 1], entries[|entries| - 1];
      TaggedIsEntry(init, tag);
      assert entries == init + [last];
    }
  }

  lemma NeededMoves(rows: seq<Row>, placed: seq<Row>, entries: seq<Entry>, file: Bytes, base: nat, contents: Bytes)
    requires Ends(file, base, contents) && RowsFit(rows, |contents|) && RowsFit(placed, |file|)
    requires AllMoved(OfKind(rows, LOAD), OfKind(placed, LOAD), base)
    requires forall e :: e in entries && e.tag == STRTAB ==>
                           Clear(OfKind(rows, LOAD), e.value, base, OfKind(placed, LOAD))
    ensures Needed(placed, entries, file) == Needed(rows, entries, contents)
  {
    hide OfKind, Ends, Tagged, Names, Live, Covering, RowsFit, RowFits, Covers, Moved, Clear;
    if EntriesFit(entries) {
      var live := entries[..Live(entries)];
      var address, size := Tagged(live, STRTAB)[0], Tagged(live, STRSZ)[0];
      TaggedIsEntry(live, STRTAB);
      assert address in Tagged(live, STRTAB);
      StringsMove(rows, placed, address, size, file, base, contents);
    }
  }

  lemma StringsMove(rows: seq<Row>, placed: seq<Row>, address: nat, size: nat, file: Bytes, base: nat, contents: Bytes)
    requires Ends(file, base, contents) && RowsFit(rows, |contents|)
    requires AllMoved(OfKind(rows, LOAD), OfKind(placed, LOAD), base)
    requires Clear(OfKind(rows, LOAD), address, base, OfKind(placed, LOAD))
    ensures
      var here, there := Covering(OfKind(rows, LOAD), address, size), Covering(OfKind(placed, LOAD), address, size);
      && |here| == |there|
      && (|here| == 1 ==> SameStrings(here[0], there[0], address, size, file, contents))
  {
    hide OfKind, Ends, Covering, RowFits, RowsFit, Covers, SameStrings, Moved, Clear;
    CoveringMoves(OfKind(rows, LOAD), OfKind(placed, LOAD), base, address, size);
    var here, there := Covering(OfKind(rows, LOAD), address, size), Covering(OfKind(placed, LOAD), address, size);
    if |here| == 1 {
      CoveredFits(rows, address, size, |contents|);
      StringMoves(here[0], there[0], base, address, size, file, contents);
    }
  }

  lemma CoveredFits(rows: seq<Row>, address: nat, size: nat, length: nat)
    requires RowsFit(rows, length) && |Covering(OfKind(rows, LOAD), address, size)| == 1
    ensures
      var r := Covering(OfKind(rows, LOAD), address, size)[0];
      RowFits(r, length) && Covers(r, address, size)
  {
    hide OfKind, Covering, RowFits, Covers;
    var r := Covering(OfKind(rows, LOAD), address, size)[0];
    assert r in Covering(OfKind(rows, LOAD), address, size);
  }

  /** The same string table, in the contents and in a file that holds them. */
  predicate SameStrings(here: Row, there: Row, address: nat, size: nat, file: Bytes, contents: Bytes) {
    var at, to := here.offset + (address - here.address), there.offset + (address - there.address);
    && 0 <= at && 0 <= to && at + size <= |contents| && to + size <= |file|
    && file[to..to + size] == contents[at..at + size]
  }

  lemma StringMoves(r: Row, p: Row, base: nat, address: nat, size: nat, file: Bytes, contents: Bytes)
    requires Ends(file, base, contents) && RowFits(r, |contents|) && Covers(r, address, size)
    requires p.offset + (address - p.address) == base + r.offset + (address - r.address)
    ensures SameStrings(r, p, address, size, file, contents)
  {
    hide Ends;
    SliceEnds(file, base, contents, r.offset + (address - r.address), size);
  }

  /** The string table of a representable image is clear of what leads a segment. */
  lemma {:induction false} StringsAreClear(im: Image, segments: seq<Segment>, wide: bool, e: Entry)
    requires forall s :: s in segments ==> WellPlaced(im, s, wide)
    requires e in im.entries && e.tag == STRTAB
    ensures
      var bare, placed := OfKind(BareAll(segments), LOAD), OfKind(PlacedAll(im, segments, wide), LOAD);
      |bare| == |placed| && Clear(bare, e.value, ContentsStart(im, wide), placed)
    decreases |segments|
  {
    hide ContentsStart, OfKind, WellPlaced, Moved, Bare, Placed;
    if segments == [] {
      NoRows(LOAD);
    } else {
      var n := |segments| - 1;
      var s := segments[n];
      StringsAreClear(im, segments[..n], wide, e);
      OfKindMore(PlacedAll(im, segments[..n], wide), Placed(im, s, wide), LOAD);
      OfKindMore(BareAll(segments[..n]), Bare(s), LOAD);
      OneIsClear(im, s, wide, e);
      var bare, placed := OfKind(BareAll(segments[..n]), LOAD), OfKind(PlacedAll(im, segments[..n], wide), LOAD);
      assert bare + [] == bare && placed + [] == placed;
    }
  }

  lemma OneIsClear(im: Image, s: Segment, wide: bool, e: Entry)
    requires WellPlaced(im, s, wide) && e in im.entries && e.tag == STRTAB
    ensures Bare(s).kind == s.kind == Placed(im, s, wide).kind
    ensures s.kind == LOAD && Placed(im, s, wide).offset == 0 && Placed(im, s, wide).address < Bare(s).address ==>
              !(Placed(im, s, wide).address <= e.value < Bare(s).address)
  {
    hide ContentsStart;
  }

  // ----- The four encodings -----

  lemma FileParts(im: Image, wide: bool, little: bool)
    requires |im.unread.ident| == 9
    ensures
      var file := File(im, wide, little);
      && Stands(file, 0, Header(im, wide, little))
      && Stands(file, HeaderSize(wide), RowsBytes(im, im.segments, wide, little))
      && Stands(file, TableStart(im, wide), EntriesBytes(im.entries, wide, little))
      && Ends(file, ContentsStart(im, wide), im.contents)
      && Identified(file) && (file[4] == 2 <==> wide) && (file[5] == 1 <==> little)
  {
    hide Put, RowsBytes, EntriesBytes;
    var file := File(im, wide, little);
    var header := Header(im, wide, little);
    hide HeaderMiddle, HeaderEnd;
    IdentStarts(im, wide, little);
    FileStands(header, RowsBytes(im, im.segments, wide, little), EntriesBytes(im.entries, wide, little), im.contents);
    assert file[..4] == header[..4];
  }

  lemma FileStands(header: Bytes, rows: Bytes, entries: Bytes, contents: Bytes)
    ensures
      var file := header + rows + entries + contents;
      && Stands(file, 0, header) && Stands(file, |header|, rows) && Stands(file, |header| + |rows|, entries)
      && Ends(file, |header| + |rows| + |entries|, contents)
      && (forall i :: 0 <= i < |header| ==> file[i] == header[i])
  {
    var file := header + rows + entries + contents;
    assert file[0..0 + |file|] == file;
    StandsFour(file, 0, header, rows, entries, contents);
  }

  lemma IdentStarts(im: Image, wide: bool, little: bool)
    requires |im.unread.ident| == 9
    ensures
      var h := Header(im, wide, little);
      && |h| >= 16 && h[..4] == [0x7F, 0x45, 0x4C, 0x46] && h[4] == (if wide then 2 else 1)
      && h[5] == (if little then 1 else 2) && h[6] == 1
  {
    hide Put, HeaderMiddle, HeaderEnd;
    var ident := Ident(im, wide, little);
    var h := Header(im, wide, little);
    assert h[..16] == ident;
    assert forall i :: 0 <= i < 16 ==> h[i] == ident[i];
  }

  /** An image written in any class that can represent it and in any byte order is
      described by its meaning: it is admitted in all of them or in none, with the
      same interpreter and the same names. */
  lemma FourEncodings(im: Image, wide: bool, little: bool)
    requires Representable(im, wide)
    ensures Describe(File(im, wide, little))
         == match Meaning(im)
            case None => None
            case Some((interpreter, needed)) =>
              Some(Inventory(im.machine, wide, little, interpreter, needed))
  {
    hide File, Header, Stands, RowsBytes, EntriesBytes, Field, RowFitsWord, Power, OfKind, Interpreter, Needed;
    hide PlacedAll, BareAll, RowsFit, Ends;
    var file := File(im, wide, little);
    FileParts(im, wide, little);
    HeaderReads(file, im, wide, little);
    RowsRead(file, HeaderSize(wide), im, im.segments, wide, little);
    HeaderFitsExactly(file, im, wide, little);
    if 0 < |im.segments| <= 4096 && (im.kind == 2 || im.kind == 3) {
      SummaryIsMeaning(file, im, wide, little);
    }
  }

  lemma HeaderFitsExactly(file: Bytes, im: Image, wide: bool, little: bool)
    requires |file| >= HeaderSize(wide) && HeaderSize(wide) + |im.segments| * RowSize(wide) <= |file|
    requires Field(file, 16, 2, little) == im.kind && Field(file, 20, 4, little) == 1
    requires Table(file, wide, little) == HeaderSize(wide) && Count(file, wide, little) == |im.segments|
    requires Field(file, if wide then 54 else 42, 2, little) == RowSize(wide)
    ensures HeaderFits(file, wide, little) <==> 0 < |im.segments| <= 4096 && (im.kind == 2 || im.kind == 3)
  {
    hide Field, Table, Count;
  }

  lemma SummaryIsMeaning(file: Bytes, im: Image, wide: bool, little: bool)
    requires Representable(im, wide)
    requires 0 < |im.segments| <= 4096 && (im.kind == 2 || im.kind == 3)
    requires Ends(file, ContentsStart(im, wide), im.contents)
    requires Stands(file, TableStart(im, wide), EntriesBytes(im.entries, wide, little))
    ensures
      var rows := PlacedAll(im, im.segments, wide);
      (if !RowsFit(rows, |file|) then None else Summary(file, rows, im.machine, wide, little))
      == match Meaning(im)
         case None => None
         case Some((interpreter, needed)) =>
           Some(Inventory(im.machine, wide, little, interpreter, needed))
  {
    hide Stands, EntriesBytes, Field, RowFitsWord, Power, OfKind, Interpreter, Needed, PlacedAll, BareAll, RowsFit;
    hide EntriesAt, TableStart, TableSize, WellPlaced, Moved, Clear, Dynamic;
    var rows, bare, base := PlacedAll(im, im.segments, wide), BareAll(im.segments), ContentsStart(im, wide);
    FitsShift(im, im.segments, wide, |file|);
    if RowsFit(rows, |file|) {
      KindsMove(im, im.segments, wide, INTERP);
      KindsMove(im, im.segments, wide, LOAD);
      InterpreterMoves(bare, rows, file, base, im.contents);
      forall e | e in im.entries && e.tag == STRTAB
        ensures Clear(OfKind(bare, LOAD), e.value, base, OfKind(rows, LOAD))
      {
        StringsAreClear(im, im.segments, wide, e);
      }
      NeededMoves(bare, rows, im.entries, file, base, im.contents);
      DynamicReads(file, im, wide, little);
    }
  }

  lemma DynamicReads(file: Bytes, im: Image, wide: bool, little: bool)
    requires Representable(im, wide) && RowsFit(PlacedAll(im, im.segments, wide), |file|)
    requires Stands(file, TableStart(im, wide), EntriesBytes(im.entries, wide, little))
    ensures Dynamic(file, PlacedAll(im, im.segments, wide), wide, little)
         == if |OfKind(BareAll(im.segments), DYNAMIC)| != 1 || |im.entries| > 65536 then None else Some(im.entries)
  {
    hide Stands, EntriesBytes, OfKind, PlacedAll, BareAll, EntriesAt, RowFitsWord, Power, TableStart, RowsFit;
    DynamicPlaced(im, im.segments, wide);
    EntriesRead(file, TableStart(im, wide), im.entries, wide, little);
    var some := OfKind(PlacedAll(im, im.segments, wide), DYNAMIC);
    if |some| == 1 {
      assert some[0] in some;
      var w := 2 * Word(wide);
      assert |im.entries| * w % w == 0 && |im.entries| * w / w == |im.entries|;
    }
  }

  /** Two encodings of one image are described alike. */
  lemma EncodingsAgree(im: Image, wide: bool, little: bool, wide': bool, little': bool)
    requires Representable(im, wide) && Representable(im, wide')
    ensures
      var a, b := Describe(File(im, wide, little)), Describe(File(im, wide', little'));
      && (a.Some? <==> b.Some?)
      && (a.Some? ==> a.value.interpreter == b.value.interpreter && a.value.needed == b.value.needed
                      && a.value.machine == b.value.machine)
  {
    hide Describe, File, Meaning, Representable;
    FourEncodings(im, wide, little);
    FourEncodings(im, wide', little');
  }
}
