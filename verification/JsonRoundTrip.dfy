/** Reading what was written gives back the value, for every way of writing it. */
module JsonRoundTrip {
  import opened Outcome
  import opened Slices
  import opened Utf8
  import opened Json
  import opened JsonText

  lemma {:induction false} SkipGap(src: Bytes, pos: nat, w: Bytes)
    requires Stands(src, pos, w) && IsGap(w)
    ensures SkipSpace(src, pos) == SkipSpace(src, pos + |w|)
    decreases |w|
  {
    if w != [] {
      StandsAt(src, pos, w, 0);
      assert w == [w[0]] + w[1..];
      StandsSplit(src, pos, [w[0]], w[1..]);
      SkipGap(src, pos + 1, w[1..]);
    }
  }

  /** A number must be followed by something that cannot belong to it. */
  predicate Ends(src: Bytes, pos: nat) {
    pos >= |src| || !NumberByte(src[pos])
  }

  // ----- Strings -----

  lemma ReadHex(src: Bytes, pos: nat, h: Bytes)
    requires Stands(src, pos, h) && IsHex4(h)
    ensures ParseHex(src, pos, 4, 0) == Parsed(pos + 4, Ok(Hex4Value(h)))
  {
    StandsAt(src, pos, h, 0);
    StandsAt(src, pos, h, 1);
    StandsAt(src, pos, h, 2);
    StandsAt(src, pos, h, 3);
    var v1 := HexValue(h[0]);
    var v2 := v1 * 16 + HexValue(h[1]);
    var v3 := v2 * 16 + HexValue(h[2]);
    var v4 := v3 * 16 + HexValue(h[3]);
    assert ParseHex(src, pos + 4, 0, v4) == Parsed(pos + 4, Ok(v4));
    assert ParseHex(src, pos + 3, 1, v3) == ParseHex(src, pos + 4, 0, v4);
    assert ParseHex(src, pos + 2, 2, v2) == ParseHex(src, pos + 3, 1, v3);
    assert ParseHex(src, pos + 1, 3, v1) == ParseHex(src, pos + 2, 2, v2);
  }

  lemma ReadUnit(src: Bytes, pos: nat, h: Bytes)
    requires Stands(src, pos, h) && PieceOk(Unit(h))
    ensures ParseUnicode(src, pos) == Parsed(pos + 4, Ok(Hex4Value(h)))
  {
    ReadHex(src, pos, h);
  }

  lemma ReadSurrogates(src: Bytes, pos: nat, high: Bytes, low: Bytes)
    requires PieceOk(Surrogates(high, low))
    requires Stands(src, pos, high + [BACKSLASH, 0x75] + low)
    ensures ParseUnicode(src, pos) == Parsed(pos + 10, Ok(PairScalar(Hex4Value(high), Hex4Value(low))))
  {
    StandsSplit(src, pos, high + [BACKSLASH, 0x75], low);
    StandsSplit(src, pos, high, [BACKSLASH, 0x75]);
    StandsAt(src, pos + 4, [BACKSLASH, 0x75], 0);
    StandsAt(src, pos + 4, [BACKSLASH, 0x75], 1);
    ReadHex(src, pos, high);
    ReadHex(src, pos + 6, low);
  }

  /** Bytes of a character that is neither a quote nor a backslash are copied. */
  lemma {:induction false} ReadBytes(src: Bytes, pos: nat, text: Bytes, out: Bytes)
    requires Stands(src, pos, text)
    requires forall i :: 0 <= i < |text| ==> text[i] != QUOTE && text[i] != BACKSLASH
    ensures ParseChars(src, pos, out) == ParseChars(src, pos + |text|, out + text)
    decreases |text|
  {
    if text == [] {
      assert out + text == out;
    } else {
      StandsAt(src, pos, text, 0);
      assert text == [text[0]] + text[1..];
      StandsSplit(src, pos, [text[0]], text[1..]);
      ReadBytes(src, pos + 1, text[1..], out + [text[0]]);
      assert out + [text[0]] + text[1..] == out + text;
    }
  }

  lemma RawIsPlain(c: Scalar)
    requires c != QUOTE && c != BACKSLASH
    ensures forall i :: 0 <= i < |EncodeOne(c)| ==> EncodeOne(c)[i] != QUOTE && EncodeOne(c)[i] != BACKSLASH
  {
    if c >= 0x80 {
      forall i | 0 <= i < |EncodeOne(c)|
        ensures EncodeOne(c)[i] >= 0x80
      {
      }
    }
  }

  lemma ReadShort(src: Bytes, pos: nat, letter: Byte, out: Bytes)
    requires ShortEscape(letter).Some? && Stands(src, pos, [BACKSLASH, letter])
    ensures ParseChars(src, pos, out) == ParseChars(src, pos + 2, out + EncodeOne(ShortEscape(letter).value))
  {
    StandsAt(src, pos, [BACKSLASH, letter], 0);
    StandsAt(src, pos, [BACKSLASH, letter], 1);
    hide Stands, Valid, ParseUnicode;
    assert EncodeOne(ShortEscape(letter).value) == [ShortEscape(letter).value];
  }

  lemma ReadEscape(src: Bytes, pos: nat, end: nat, c: Scalar, out: Bytes)
    requires pos + 2 <= |src| && src[pos] == BACKSLASH && src[pos + 1] == 0x75
    requires ParseUnicode(src, pos + 2) == Parsed(end, Ok(c))
    ensures end <= |src| && ParseChars(src, pos, out) == ParseChars(src, end, out + EncodeOne(c))
  {
    hide Valid, ParseUnicode, EncodeOne;
  }

  /** One written character is one more character of the result. */
  lemma ReadPiece(src: Bytes, pos: nat, p: Piece, out: Bytes)
    requires PieceOk(p) && Stands(src, pos, WritePiece(p))
    ensures pos + |WritePiece(p)| <= |src|
    ensures ParseChars(src, pos, out) == ParseChars(src, pos + |WritePiece(p)|, out + EncodeOne(PieceScalar(p)))
  {
    hide Stands, Valid, ParseChars, ParseUnicode, EncodeOne, Hex4Value, PairScalar;
    StandsFits(src, pos, WritePiece(p));
    match p
    case Raw(c) =>
      RawIsPlain(c);
      ReadBytes(src, pos, EncodeOne(c), out);
    case Short(letter) =>
      ReadShort(src, pos, letter, out);
    case Unit(hex) =>
      StandsSplit(src, pos, [BACKSLASH, 0x75], hex);
      StandsAt(src, pos, [BACKSLASH, 0x75], 0);
      StandsAt(src, pos, [BACKSLASH, 0x75], 1);
      ReadUnit(src, pos + 2, hex);
      ReadEscape(src, pos, pos + 6, PieceScalar(p), out);
    case Surrogates(high, low) =>
      assert WritePiece(p) == [BACKSLASH, 0x75] + (high + [BACKSLASH, 0x75] + low);
      StandsSplit(src, pos, [BACKSLASH, 0x75], high + [BACKSLASH, 0x75] + low);
      StandsAt(src, pos, [BACKSLASH, 0x75], 0);
      StandsAt(src, pos, [BACKSLASH, 0x75], 1);
      ReadSurrogates(src, pos + 2, high, low);
      ReadEscape(src, pos, pos + 12, PieceScalar(p), out);
  }

  lemma {:induction false} ReadPieces(src: Bytes, pos: nat, ps: seq<Piece>, out: Bytes)
    requires PiecesOk(ps) && Stands(src, pos, WritePieces(ps))
    ensures pos + |WritePieces(ps)| <= |src|
    ensures ParseChars(src, pos, out) == ParseChars(src, pos + |WritePieces(ps)|, out + Meaning(ps))
    decreases |ps|
  {
    hide Stands, ParseChars, PieceOk, WritePiece, EncodeOne, PieceScalar;
    StandsFits(src, pos, WritePieces(ps));
    if ps == [] {
      assert out + Meaning(ps) == out;
    } else {
      StandsSplit(src, pos, WritePiece(ps[0]), WritePieces(ps[1..]));
      ReadPiece(src, pos, ps[0], out);
      var c := EncodeOne(PieceScalar(ps[0]));
      ReadPieces(src, pos + |WritePiece(ps[0])|, ps[1..], out + c);
      assert out + c + Meaning(ps[1..]) == out + Meaning(ps);
    }
  }

  lemma {:induction false} MeaningIsValid(ps: seq<Piece>)
    requires PiecesOk(ps)
    ensures Valid(Meaning(ps))
    decreases |ps|
  {
    if ps != [] {
      EncodeOneIsValid(PieceScalar(ps[0]));
      MeaningIsValid(ps[1..]);
      ValidConcat(EncodeOne(PieceScalar(ps[0])), Meaning(ps[1..]));
    }
  }

  lemma ReadQuoted(src: Bytes, pos: nat, end: nat, text: Bytes)
    requires pos < end < |src| && src[pos] == QUOTE && src[end] == QUOTE && Valid(text)
    requires ParseChars(src, pos + 1, []) == ParseChars(src, end, text)
    ensures ParseString(src, pos) == Parsed(end + 1, Ok(text))
  {
    hide Valid;
  }

  lemma ReadString(src: Bytes, pos: nat, ps: seq<Piece>)
    requires PiecesOk(ps) && Stands(src, pos, WriteString(ps))
    ensures ParseString(src, pos) == Parsed(pos + |WriteString(ps)|, Ok(Meaning(ps)))
  {
    hide Stands, ParseChars, ParseString, PiecesOk, WritePieces, Meaning, Valid;
    StandsSplit(src, pos, [QUOTE] + WritePieces(ps), [QUOTE]);
    StandsSplit(src, pos, [QUOTE], WritePieces(ps));
    StandsAt(src, pos, [QUOTE], 0);
    var end := pos + 1 + |WritePieces(ps)|;
    StandsFits(src, end, [QUOTE]);
    StandsAt(src, end, [QUOTE], 0);
    ReadPieces(src, pos + 1, ps, []);
    assert [] + Meaning(ps) == Meaning(ps);
    MeaningIsValid(ps);
    ReadQuoted(src, pos, end, Meaning(ps));
  }

  // ----- Numbers -----

  lemma {:induction false} ReadRun(src: Bytes, pos: nat, t: Bytes)
    requires Stands(src, pos, t) && Ends(src, pos + |t|)
    requires forall i :: 0 <= i < |t| ==> NumberByte(t[i])
    ensures NumberRun(src, pos).0 == pos + |t|
    ensures NumberRun(src, pos).1 > 0 <==> exists i :: 0 <= i < |t| && Digit(t[i])
    decreases |t|
  {
    if t != [] {
      StandsAt(src, pos, t, 0);
      assert t == [t[0]] + t[1..];
      StandsSplit(src, pos, [t[0]], t[1..]);
      ReadRun(src, pos + 1, t[1..]);
      if i :| 0 <= i < |t| && Digit(t[i]) {
        assert i > 0 ==> Digit(t[1..][i - 1]);
      }
      if i :| 0 <= i < |t[1..]| && Digit(t[1..][i]) {
        assert Digit(t[i + 1]);
      }
    }
  }

  lemma RunIsNumber(src: Bytes, pos: nat, start: nat, end: nat)
    requires start == (if Peeks(src, pos, 0x2D) then pos + 1 else pos)
    requires pos <= |src| && NumberRun(src, start).0 == end && NumberRun(src, start).1 > 0
    ensures ParseNumber(src, pos) == Parsed(end, Ok(Number(src[pos..end])))
  {
    hide NumberRun;
  }

  lemma ReadNumber(src: Bytes, pos: nat, t: Bytes)
    requires LooseNumber(t) && Stands(src, pos, t) && Ends(src, pos + |t|)
    ensures ParseNumber(src, pos) == Parsed(pos + |t|, Ok(Number(t)))
  {
    hide Stands, NumberRun, ParseNumber, NumberByte;
    StandsAt(src, pos, t, 0);
    var end := pos + |t|;
    if t[0] == 0x2D {
      assert t == [t[0]] + t[1..];
      StandsSplit(src, pos, [t[0]], t[1..]);
      ReadRun(src, pos + 1, t[1..]);
      DigitAfterSign(t);
      RunIsNumber(src, pos, pos + 1, end);
    } else {
      ReadRun(src, pos, t);
      RunIsNumber(src, pos, pos, end);
    }
    StandsText(src, pos, t);
  }

  lemma DigitAfterSign(t: Bytes)
    requires LooseNumber(t) && t[0] == 0x2D
    ensures exists i :: 0 <= i < |t[1..]| && Digit(t[1..][i])
  {
    var i :| 0 <= i < |t| && Digit(t[i]);
    assert t[1..][i - 1] == t[i];
  }

  // ----- Values -----

  /** No document starts with white space, and none is empty. */
  lemma WriteStarts(d: Doc)
    requires DocOk(d)
    ensures Write(d) != [] && !Space(Write(d)[0])
    ensures Write(d)[0] != 0x5D && Write(d)[0] != 0x7D && Write(d)[0] != 0x2C
  {
  }

  lemma ReadLiteral(src: Bytes, pos: nat, literal: Bytes, value: Json)
    requires Stands(src, pos, literal)
    requires (literal, value) in [(TRUE, Bool(true)), (FALSE, Bool(false)), (NULL, Null)]
    ensures ParseValue(src, pos) == Parsed(pos + |literal|, Ok(value))
  {
    StandsAt(src, pos, literal, 0);
    hide ParseItems, ParseFields, ParseString, ParseNumber;
  }

  lemma NumberIsValue(src: Bytes, pos: nat)
    requires pos < |src| && (src[pos] == 0x2D || Digit(src[pos]))
    ensures ParseValue(src, pos) == ParseNumber(src, pos)
  {
    hide ParseItems, ParseFields, ParseString, ParseNumber;
  }

  lemma StringIsValue(src: Bytes, pos: nat, end: nat, text: Bytes)
    requires pos < |src| && src[pos] == QUOTE && ParseString(src, pos) == Parsed(end, Ok(text))
    ensures ParseValue(src, pos) == Parsed(end, Ok(Str(text)))
  {
    hide ParseItems, ParseFields, ParseString, ParseNumber;
  }

  lemma EmptyIsValue(src: Bytes, pos: nat, end: nat, list: bool)
    requires pos < |src| && src[pos] == (if list then 0x5B else 0x7B)
    requires SkipSpace(src, pos + 1) == end && Peeks(src, end, if list then 0x5D else 0x7D)
    ensures ParseValue(src, pos) == Parsed(end + 1, Ok(if list then Array([]) else Object([])))
  {
    hide ParseItems, ParseFields, ParseString, ParseNumber;
  }

  lemma ItemsAreValue(src: Bytes, pos: nat)
    requires pos < |src| && src[pos] == 0x5B && !Peeks(src, SkipSpace(src, pos + 1), 0x5D)
    ensures ParseValue(src, pos) == ParseItems(src, SkipSpace(src, pos + 1), [])
  {
    hide ParseItems, ParseFields, ParseString, ParseNumber;
  }

  lemma FieldsAreValue(src: Bytes, pos: nat)
    requires pos < |src| && src[pos] == 0x7B && !Peeks(src, SkipSpace(src, pos + 1), 0x7D)
    ensures ParseValue(src, pos) == ParseFields(src, SkipSpace(src, pos + 1), [])
  {
    hide ParseItems, ParseFields, ParseString, ParseNumber;
  }

  lemma {:induction false} ReadDoc(src: Bytes, pos: nat, d: Doc)
    requires DocOk(d) && Stands(src, pos, Write(d)) && Ends(src, pos + |Write(d)|)
    ensures ParseValue(src, pos) == Parsed(pos + |Write(d)|, Ok(Value(d)))
    decreases d, 0
  {
    hide Stands, SkipSpace, ParseValue, ParseItems, ParseFields, ParseString, ParseNumber, Ends;
    hide WriteItems, WriteMembers, WriteString, ItemsOk, MembersOk, PiecesOk, LooseNumber, IsGap;
    hide ItemValues, MemberValues, Meaning;
    match d
    case DNull => ReadLiteral(src, pos, NULL, Null);
    case DTrue => ReadLiteral(src, pos, TRUE, Bool(true));
    case DFalse => ReadLiteral(src, pos, FALSE, Bool(false));
    case DNumber(text) =>
      NumberStarts(src, pos, text);
      NumberIsValue(src, pos);
      ReadNumber(src, pos, text);
    case DStr(pieces) =>
      StringStarts(src, pos, pieces);
      ReadString(src, pos, pieces);
      StringIsValue(src, pos, pos + |WriteString(pieces)|, Meaning(pieces));
    case DEmptyArray(gap) =>
      ReadEmpty(src, pos, 0x5B, gap, 0x5D);
      EmptyIsValue(src, pos, pos + 1 + |gap|, true);
    case DEmptyObject(gap) =>
      ReadEmpty(src, pos, 0x7B, gap, 0x7D);
      EmptyIsValue(src, pos, pos + 1 + |gap|, false);
    case DArray(items) => ReadArray(src, pos, items);
    case DObject(members) => ReadObject(src, pos, members);
  }

  lemma {:induction false} ReadArray(src: Bytes, pos: nat, items: Items)
    requires ItemsOk(items) && Stands(src, pos, [0x5B] + WriteItems(items))
    ensures ParseValue(src, pos) == Parsed(pos + 1 + |WriteItems(items)|, Ok(Array(ItemValues(items))))
    decreases items, 2
  {
    hide Stands, SkipSpace, ParseValue, ParseItems, WriteItems, ItemsOk, ItemValues;
    StandsSplit(src, pos, [0x5B], WriteItems(items));
    StandsAt(src, pos, [0x5B], 0);
    ItemsStart(src, pos + 1, items);
    ItemsAreValue(src, pos);
    ReadItems(src, pos + 1, items, []);
    assert [] + ItemValues(items) == ItemValues(items);
  }

  lemma {:induction false} ReadObject(src: Bytes, pos: nat, members: Members)
    requires MembersOk(members) && Stands(src, pos, [0x7B] + WriteMembers(members))
    ensures ParseValue(src, pos) == Parsed(pos + 1 + |WriteMembers(members)|, Ok(Object(MemberValues(members))))
    decreases members, 2
  {
    hide Stands, SkipSpace, ParseValue, ParseFields, WriteMembers, WriteString, MembersOk, MemberValues;
    StandsSplit(src, pos, [0x7B], WriteMembers(members));
    StandsAt(src, pos, [0x7B], 0);
    KeyStart(src, pos + 1, members);
    FieldsAreValue(src, pos);
    ReadMembers(src, pos + 1, members, []);
    assert [] + MemberValues(members) == MemberValues(members);
  }

  lemma NumberStarts(src: Bytes, pos: nat, t: Bytes)
    requires LooseNumber(t) && Stands(src, pos, t)
    ensures pos < |src| && (src[pos] == 0x2D || Digit(src[pos]))
  {
    StandsAt(src, pos, t, 0);
  }

  lemma StringStarts(src: Bytes, pos: nat, ps: seq<Piece>)
    requires Stands(src, pos, WriteString(ps))
    ensures pos < |src| && src[pos] == QUOTE
  {
    StandsAt(src, pos, WriteString(ps), 0);
  }

  lemma ReadEmpty(src: Bytes, pos: nat, open: Byte, gap: Bytes, close: Byte)
    requires IsGap(gap) && !Space(close) && Stands(src, pos, [open] + gap + [close])
    ensures pos < |src| && src[pos] == open
    ensures SkipSpace(src, pos + 1) == pos + 1 + |gap| && Peeks(src, pos + 1 + |gap|, close)
  {
    hide Stands, IsGap, SkipSpace;
    StandsSplit(src, pos, [open] + gap, [close]);
    StandsSplit(src, pos, [open], gap);
    StandsAt(src, pos, [open], 0);
    StandsAt(src, pos + 1 + |gap|, [close], 0);
    SkipGap(src, pos + 1, gap);
    NoSpace(src, pos + 1 + |gap|);
  }

  /** After the white space before an item stands the item. */
  lemma ItemsStart(src: Bytes, pos: nat, items: Items)
    requires ItemsOk(items) && Stands(src, pos, WriteItems(items))
    ensures
      var at := pos + |items.before|;
      var end := at + |Write(items.doc)|;
      var next := end + |items.after|;
      && SkipSpace(src, pos) == at && !Peeks(src, at, 0x5D)
      && Stands(src, at, Write(items.doc)) && Stands(src, end, items.after)
      && Stands(src, next, ItemsTail(items))
      && next + |ItemsTail(items)| == pos + |WriteItems(items)| <= |src|
      && Peeks(src, next, ItemsTail(items)[0])
  {
    hide Stands, Write, DocOk, IsGap, SkipSpace, WriteItems, ItemsTail, ItemsOk;
    ItemsUnfold(items);
    WriteStarts(items.doc);
    var before, doc, after, tail := items.before, Write(items.doc), items.after, ItemsTail(items);
    ItemParts(src, pos, before, doc, after, tail);
  }

  lemma ItemParts(src: Bytes, pos: nat, before: Bytes, doc: Bytes, after: Bytes, tail: Bytes)
    requires Stands(src, pos, before + doc + after + tail) && IsGap(before)
    requires doc != [] && !Space(doc[0]) && tail != []
    ensures
      var at := pos + |before|;
      var end := at + |doc|;
      var next := end + |after|;
      && SkipSpace(src, pos) == at && Peeks(src, at, doc[0]) && Stands(src, at, doc)
      && Stands(src, end, after) && Stands(src, next, tail) && Peeks(src, next, tail[0])
      && next + |tail| <= |src|
  {
    hide Stands, IsGap, SkipSpace;
    StandsFour(src, pos, before, doc, after, tail);
    StandsAt(src, pos + |before|, doc, 0);
    StandsAt(src, pos + |before| + |doc| + |after|, tail, 0);
    SkipGap(src, pos, before);
    NoSpace(src, pos + |before|);
  }

  lemma NoSpace(src: Bytes, pos: nat)
    requires pos < |src| && !Space(src[pos])
    ensures SkipSpace(src, pos) == pos
  {
  }

  /** The byte after a gap ends a number, whatever follows the gap. */
  lemma GapEnds(src: Bytes, pos: nat, w: Bytes, next: Byte)
    requires IsGap(w) && Stands(src, pos, w) && Peeks(src, pos + |w|, next)
    requires !NumberByte(next)
    ensures Ends(src, pos)
  {
    if w != [] {
      StandsAt(src, pos, w, 0);
    }
  }

  lemma AnotherItem(src: Bytes, pos: nat, end: nat, v: Json, next: nat, done: seq<Json>)
    requires pos <= |src| && ParseValue(src, pos) == Parsed(end, Ok(v))
    requires SkipSpace(src, end) == next && Peeks(src, next, 0x2C)
    ensures ParseItems(src, pos, done) == ParseItems(src, SkipSpace(src, next + 1), done + [v])
  {
    hide ParseValue, SkipSpace;
  }

  lemma FinalItem(src: Bytes, pos: nat, end: nat, v: Json, next: nat, done: seq<Json>)
    requires pos <= |src| && ParseValue(src, pos) == Parsed(end, Ok(v))
    requires SkipSpace(src, end) == next && Peeks(src, next, 0x5D)
    ensures ParseItems(src, pos, done) == Parsed(next + 1, Ok(Array(done + [v])))
  {
    hide ParseValue, SkipSpace;
  }

  /** A value, the white space after it and a byte no number can hold. */
  lemma {:induction false} ReadPadded(src: Bytes, pos: nat, d: Doc, after: Bytes, next: Byte)
    requires DocOk(d) && Stands(src, pos, Write(d)) && IsGap(after)
    requires Stands(src, pos + |Write(d)|, after) && Peeks(src, pos + |Write(d)| + |after|, next)
    requires !NumberByte(next) && !Space(next)
    ensures ParseValue(src, pos) == Parsed(pos + |Write(d)|, Ok(Value(d)))
    ensures SkipSpace(src, pos + |Write(d)|) == pos + |Write(d)| + |after|
    decreases d, 1
  {
    hide Stands, ParseValue, Write, Value, DocOk, IsGap, SkipSpace;
    var end := pos + |Write(d)|;
    GapEnds(src, end, after, next);
    ReadDoc(src, pos, d);
    SkipGap(src, end, after);
    NoSpace(src, end + |after|);
  }

  lemma ItemsUnfold(items: Items)
    requires ItemsOk(items)
    ensures IsGap(items.before) && DocOk(items.doc) && IsGap(items.after)
    ensures WriteItems(items) == items.before + Write(items.doc) + items.after + ItemsTail(items)
    ensures items.LastItem? ==> ItemValues(items) == [Value(items.doc)] && ItemsTail(items) == [0x5D]
    ensures items.MoreItems? ==>
      && ItemsOk(items.rest)
      && ItemValues(items) == [Value(items.doc)] + ItemValues(items.rest)
      && ItemsTail(items) == [0x2C] + WriteItems(items.rest)
  {
    hide DocOk, Value, IsGap, Write;
  }

  /** Reading one item leaves the reader after it and its comma or bracket. */
  lemma {:induction false} ReadItem(src: Bytes, pos: nat, items: Items, done: seq<Json>)
    returns (next: nat)
    requires ItemsOk(items) && Stands(src, pos, WriteItems(items))
    ensures next + |ItemsTail(items)| == pos + |WriteItems(items)| <= |src|
    ensures Stands(src, next, ItemsTail(items))
    ensures
      var more := done + [Value(items.doc)];
      ParseItems(src, SkipSpace(src, pos), done)
      == if items.LastItem? then Parsed(next + 1, Ok(Array(more)))
         else ParseItems(src, SkipSpace(src, next + 1), more)
    decreases items, 0
  {
    hide Stands, ParseValue, ParseItems, Write, WriteItems, Value, DocOk, IsGap, SkipSpace, LooseNumber;
    hide ItemsOk, ItemValues, ItemsTail;
    ItemsUnfold(items);
    ItemsStart(src, pos, items);
    var from := SkipSpace(src, pos);
    var end := from + |Write(items.doc)|;
    next := end + |items.after|;
    ReadPadded(src, from, items.doc, items.after, ItemsTail(items)[0]);
    if items.LastItem? {
      FinalItem(src, from, end, Value(items.doc), next, done);
    } else {
      AnotherItem(src, from, end, Value(items.doc), next, done);
    }
  }

  lemma {:induction false} ReadItems(src: Bytes, pos: nat, items: Items, done: seq<Json>)
    requires ItemsOk(items) && Stands(src, pos, WriteItems(items))
    ensures ParseItems(src, SkipSpace(src, pos), done)
         == Parsed(pos + |WriteItems(items)|, Ok(Array(done + ItemValues(items))))
    decreases items, 1
  {
    hide Stands, ParseValue, ParseItems, Write, WriteItems, Value, DocOk, IsGap, SkipSpace, LooseNumber;
    hide ItemsOk, ItemValues, ItemsTail;
    ItemsUnfold(items);
    var next := ReadItem(src, pos, items, done);
    if items.MoreItems? {
      StandsSplit(src, next, [0x2C], WriteItems(items.rest));
      ReadItems(src, next + 1, items.rest, done + [Value(items.doc)]);
      Regroup(done, Value(items.doc), ItemValues(items.rest));
    }
  }

  lemma Regroup<T>(done: seq<T>, x: T, rest: seq<T>)
    ensures done + [x] + rest == done + ([x] + rest)
  {
  }

  /** After the white space before a key stands the key, and after it its colon. */
  lemma KeyStart(src: Bytes, pos: nat, members: Members)
    requires MembersOk(members) && Stands(src, pos, WriteMembers(members))
    ensures
      var k := members.key;
      var at := pos + |k.before|;
      var colon := at + |WriteString(k.pieces)| + |k.after|;
      && SkipSpace(src, pos) == at && Stands(src, at, WriteString(k.pieces)) && Peeks(src, at, QUOTE)
      && SkipSpace(src, at + |WriteString(k.pieces)|) == colon && Peeks(src, colon, 0x3A)
      && Stands(src, colon + 1, AfterColon(members))
      && colon + 1 + |AfterColon(members)| == pos + |WriteMembers(members)| <= |src|
  {
    hide Stands, Write, DocOk, IsGap, SkipSpace, WriteMembers, WriteString, AfterColon, PiecesOk, MembersOk;
    MembersUnfold(members);
    WriteMembersUnfold(members);
    var k, key, tail := members.key, WriteString(members.key.pieces), AfterColon(members);
    ItemParts(src, pos, k.before, key, k.after, [0x3A] + tail);
    var colon := pos + |k.before| + |key| + |k.after|;
    StandsSplit(src, colon, [0x3A], tail);
    SkipGap(src, pos + |k.before| + |key|, k.after);
    NoSpace(src, colon);
  }

  lemma WriteMembersUnfold(members: Members)
    ensures WriteMembers(members) == members.key.before + WriteString(members.key.pieces) + members.key.after
                                     + ([0x3A] + AfterColon(members))
    ensures WriteString(members.key.pieces) != [] && WriteString(members.key.pieces)[0] == QUOTE
  {
    hide AfterColon;
  }

  /** After the colon and white space stands the value. */
  lemma MemberStart(src: Bytes, pos: nat, members: Members)
    requires Stands(src, pos, AfterColon(members))
    ensures
      var at := pos + |members.before|;
      var end := at + |Write(members.doc)|;
      var next := end + |members.after|;
      && Stands(src, pos, members.before) && Stands(src, at, Write(members.doc))
      && Stands(src, end, members.after) && Stands(src, next, MembersTail(members))
      && next + |MembersTail(members)| == pos + |AfterColon(members)| <= |src|
      && Peeks(src, next, MembersTail(members)[0])
  {
    hide Stands, Write, MembersTail;
    var before, doc, after, tail := members.before, Write(members.doc), members.after, MembersTail(members);
    StandsFour(src, pos, before, doc, after, tail);
    StandsAt(src, pos + |before| + |doc| + |after|, tail, 0);
  }

  lemma AnotherField(src: Bytes, pos: nat, k: Parsed<Bytes>, colon: nat, v: Parsed<Json>, next: nat,
                     done: seq<(Bytes, Json)>)
    requires pos <= |src| && SkipSpace(src, pos) == pos && ParseString(src, pos) == k && k.result.Ok?
    requires SkipSpace(src, k.pos) == colon && Peeks(src, colon, 0x3A)
    requires ParseValue(src, colon + 1) == v && v.result.Ok?
    requires SkipSpace(src, v.pos) == next && Peeks(src, next, 0x2C)
    ensures ParseFields(src, pos, done)
         == ParseFields(src, SkipSpace(src, next + 1), done + [(k.result.value, v.result.value)])
  {
    hide ParseValue, ParseString, SkipSpace;
  }

  lemma FinalField(src: Bytes, pos: nat, k: Parsed<Bytes>, colon: nat, v: Parsed<Json>, next: nat,
                   done: seq<(Bytes, Json)>)
    requires pos <= |src| && SkipSpace(src, pos) == pos && ParseString(src, pos) == k && k.result.Ok?
    requires SkipSpace(src, k.pos) == colon && Peeks(src, colon, 0x3A)
    requires ParseValue(src, colon + 1) == v && v.result.Ok?
    requires SkipSpace(src, v.pos) == next && Peeks(src, next, 0x7D)
    ensures ParseFields(src, pos, done)
         == Parsed(next + 1, Ok(Object(done + [(k.result.value, v.result.value)])))
  {
    hide ParseValue, ParseString, SkipSpace;
  }

  lemma MembersUnfold(members: Members)
    requires MembersOk(members)
    ensures IsGap(members.key.before) && PiecesOk(members.key.pieces) && IsGap(members.key.after)
    ensures IsGap(members.before) && DocOk(members.doc) && IsGap(members.after)
    ensures
      var field := (Meaning(members.key.pieces), Value(members.doc));
      && (members.LastMember? ==> MemberValues(members) == [field] && MembersTail(members) == [0x7D])
      && (members.MoreMembers? ==>
            && MembersOk(members.rest)
            && MemberValues(members) == [field] + MemberValues(members.rest)
            && MembersTail(members) == [0x2C] + WriteMembers(members.rest))
  {
    hide DocOk, Value, IsGap, Write, Meaning, PiecesOk;
  }

  /** Reading one member leaves the reader after it and its comma or brace. */
  lemma {:induction false} ReadMember(src: Bytes, pos: nat, members: Members, done: seq<(Bytes, Json)>)
    returns (next: nat)
    requires MembersOk(members) && Stands(src, pos, WriteMembers(members))
    ensures next + |MembersTail(members)| == pos + |WriteMembers(members)| <= |src|
    ensures Stands(src, next, MembersTail(members))
    ensures
      var more := done + [(Meaning(members.key.pieces), Value(members.doc))];
      ParseFields(src, SkipSpace(src, pos), done)
      == if members.LastMember? then Parsed(next + 1, Ok(Object(more)))
         else ParseFields(src, SkipSpace(src, next + 1), more)
    decreases members, 0
  {
    hide Stands, ParseValue, ParseFields, Write, WriteMembers, Value, DocOk, SkipSpace, LooseNumber;
    hide ParseString, WriteString, PiecesOk, Meaning, AfterColon, MembersTail, IsGap, MembersOk, MemberValues;
    MembersUnfold(members);
    KeyStart(src, pos, members);
    var colon := MemberColon(src, pos, members);
    MemberStart(src, colon + 1, members);
    var k := members.key;
    var from := SkipSpace(src, pos);
    var value := colon + 1 + |members.before|;
    var end := value + |Write(members.doc)|;
    next := end + |members.after|;
    NoSpace(src, from);
    ReadString(src, from, k.pieces);
    ReadPadded(src, value, members.doc, members.after, MembersTail(members)[0]);
    SkippedValue(src, colon + 1, members.before);
    var key := Parsed(from + |WriteString(k.pieces)|, Ok(Meaning(k.pieces)));
    var v := Parsed(end, Ok(Value(members.doc)));
    if members.LastMember? {
      FinalField(src, from, key, colon, v, next, done);
    } else {
      AnotherField(src, from, key, colon, v, next, done);
    }
  }

  function MemberColon(src: Bytes, pos: nat, members: Members): nat {
    pos + |members.key.before| + |WriteString(members.key.pieces)| + |members.key.after|
  }

  lemma {:induction false} ReadMembers(src: Bytes, pos: nat, members: Members, done: seq<(Bytes, Json)>)
    requires MembersOk(members) && Stands(src, pos, WriteMembers(members))
    ensures ParseFields(src, SkipSpace(src, pos), done)
         == Parsed(pos + |WriteMembers(members)|, Ok(Object(done + MemberValues(members))))
    decreases members, 1
  {
    hide Stands, ParseValue, ParseFields, Write, WriteMembers, Value, DocOk, IsGap, SkipSpace, LooseNumber;
    hide Meaning, PiecesOk, MembersOk, MemberValues, MembersTail;
    MembersUnfold(members);
    var next := ReadMember(src, pos, members, done);
    if members.MoreMembers? {
      StandsSplit(src, next, [0x2C], WriteMembers(members.rest));
      var field := (Meaning(members.key.pieces), Value(members.doc));
      ReadMembers(src, next + 1, members.rest, done + [field]);
      Regroup(done, field, MemberValues(members.rest));
    }
  }

  /** Reading a value skips the white space before it. */
  lemma SkippedValue(src: Bytes, pos: nat, w: Bytes)
    requires Stands(src, pos, w) && IsGap(w)
    ensures pos + |w| <= |src| && ParseValue(src, pos) == ParseValue(src, pos + |w|)
  {
    hide ParseItems, ParseFields, ParseString, ParseNumber, ParseLiteral;
    SkipGap(src, pos, w);
  }

  /** For every value, every white space and every choice of escapes, the reader
      returns the value and consumes the text to its end. */
  lemma RoundTrip(before: Bytes, d: Doc, after: Bytes)
    requires IsGap(before) && DocOk(d) && IsGap(after)
    ensures
      var src := before + Write(d) + after;
      ParseDocument(src) == Parsed(|src|, Ok(Value(d)))
  {
    var src := before + Write(d) + after;
    hide Write, DocOk, Value, IsGap, SkipSpace, ParseValue;
    assert src[0..0 + |src|] == src;
    StandsSplit(src, 0, before + Write(d), after);
    StandsSplit(src, 0, before, Write(d));
    hide Stands;
    SkippedValue(src, 0, before);
    var end := |before| + |Write(d)|;
    GapEndsText(src, end, after);
    ReadDoc(src, |before|, d);
  }

  lemma GapEndsText(src: Bytes, pos: nat, w: Bytes)
    requires IsGap(w) && Stands(src, pos, w) && pos + |w| == |src|
    ensures Ends(src, pos) && SkipSpace(src, pos) == |src|
  {
    if w != [] {
      StandsAt(src, pos, w, 0);
    }
    SkipGap(src, pos, w);
  }
}
