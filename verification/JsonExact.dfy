/** The texts the reader takes are exactly those that can be written: the converse of
    the round trip. */
module JsonExact {
  import opened Json
  import opened JsonRoundTrip
  import opened JsonText
  import opened JsonUtf8
  import opened Outcome
  import opened Slices
  import opened Utf8

  lemma StandsJoin(src: Bytes, pos: nat, a: Bytes, b: Bytes)
    requires Stands(src, pos, a) && Stands(src, pos + |a|, b)
    ensures Stands(src, pos, a + b)
  {
    var end := pos + |a| + |b|;
    assert src[pos..end] == src[pos..pos + |a|] + src[pos + |a|..end];
  }

  lemma StandsSlice(src: Bytes, pos: nat, end: nat)
    requires pos <= end <= |src|
    ensures Stands(src, pos, src[pos..end])
  {
  }

  // ----- Characters -----

  /** The character that starts `b`. */
  lemma FindCharacter(b: Bytes) returns (c: Scalar)
    requires CharLength(b) > 0
    ensures EncodeOne(c) == b[..CharLength(b)]
  {
    var n := CharLength(b);
    var x := b[..n];
    assert forall i :: 0 <= i < n ==> x[i] == b[i];
    if n == 1 {
      c := b[0];
    } else if n == 2 {
      c := FindTwo(x);
    } else if n == 3 {
      c := FindThree(x);
    } else {
      c := FindFour(x);
    }
  }

  lemma FindTwo(x: Bytes) returns (c: Scalar)
    requires |x| == 2 && 0xC2 <= x[0] < 0xE0 && Continues(x[1])
    ensures EncodeOne(c) == x
  {
    c := (x[0] as int - 0xC0) * 64 + (x[1] as int - 0x80);
    assert c / 64 == x[0] as int - 0xC0 && c % 64 == x[1] as int - 0x80;
  }

  lemma FindThree(x: Bytes) returns (c: Scalar)
    requires |x| == 3 && 0xE0 <= x[0] < 0xF0 && Continues(x[1]) && Continues(x[2])
    requires (x[0] == 0xE0 ==> x[1] >= 0xA0) && (x[0] == 0xED ==> x[1] < 0xA0)
    ensures EncodeOne(c) == x
  {
    var high := (x[0] as int - 0xE0) * 64 + (x[1] as int - 0x80);
    c := high * 64 + (x[2] as int - 0x80);
    assert c / 64 == high && c % 64 == x[2] as int - 0x80;
    assert high / 64 == x[0] as int - 0xE0 && high % 64 == x[1] as int - 0x80;
    assert c / 4096 == high / 64;
  }

  lemma FindFour(x: Bytes) returns (c: Scalar)
    requires |x| == 4 && 0xF0 <= x[0] < 0xF5 && Continues(x[1]) && Continues(x[2]) && Continues(x[3])
    requires (x[0] == 0xF0 ==> x[1] >= 0x90) && (x[0] == 0xF4 ==> x[1] < 0x90)
    ensures EncodeOne(c) == x
  {
    var top := (x[0] as int - 0xF0) * 64 + (x[1] as int - 0x80);
    var high := top * 64 + (x[2] as int - 0x80);
    c := high * 64 + (x[3] as int - 0x80);
    assert c / 64 == high && c % 64 == x[3] as int - 0x80;
    assert high / 64 == top && high % 64 == x[2] as int - 0x80;
    assert top / 64 == x[0] as int - 0xF0 && top % 64 == x[1] as int - 0x80;
    assert c / 4096 == high / 64 && c / 262144 == top / 64;
  }

  // ----- Gaps and numbers -----

  lemma {:induction false} FindGap(src: Bytes, pos: nat)
    requires pos <= |src|
    ensures IsGap(src[pos..SkipSpace(src, pos)])
    decreases |src| - pos
  {
    if pos < |src| && Space(src[pos]) {
      FindGap(src, pos + 1);
      assert src[pos..SkipSpace(src, pos)] == [src[pos]] + src[pos + 1..SkipSpace(src, pos)];
    }
  }

  lemma {:induction false} FindRun(src: Bytes, pos: nat)
    requires pos <= |src|
    ensures
      var (end, digits) := NumberRun(src, pos);
      && (forall i :: pos <= i < end ==> NumberByte(src[i]))
      && (digits > 0 ==> exists i :: pos <= i < end && Digit(src[i]))
    decreases |src| - pos
  {
    if pos < |src| && NumberByte(src[pos]) {
      FindRun(src, pos + 1);
      var (end, digits) := NumberRun(src, pos + 1);
      if digits > 0 {
        var i :| pos + 1 <= i < end && Digit(src[i]);
        assert pos <= i && Digit(src[i]);
      }
    }
  }

  lemma FindNumber(src: Bytes, pos: nat)
    requires pos < |src| && (src[pos] == 0x2D || Digit(src[pos])) && ParseNumber(src, pos).result.Ok?
    ensures
      var end := ParseNumber(src, pos).pos;
      LooseNumber(src[pos..end]) && ParseNumber(src, pos).result == Ok(Number(src[pos..end]))
  {
    hide NumberRun;
    var start := if Peeks(src, pos, 0x2D) then pos + 1 else pos;
    FindRun(src, start);
    var end := NumberRun(src, start).0;
    var t := src[pos..end];
    var i :| start <= i < end && Digit(src[i]);
    assert Digit(t[i - pos]);
    forall j | 0 <= j < |t|
      ensures NumberByte(t[j])
    {
      assert t[j] == src[pos + j];
    }
  }

  // ----- Strings -----

  lemma HexSteps(src: Bytes, pos: nat, n: nat, value: nat)
    requires pos <= |src| && n > 0 && ParseHex(src, pos, n, value).result.Ok?
    ensures pos < |src| && HexDigit(src[pos])
    ensures ParseHex(src, pos, n, value) == ParseHex(src, pos + 1, n - 1, value * 16 + HexValue(src[pos]))
  {
  }

  lemma FindHex(src: Bytes, pos: nat)
    requires pos <= |src| && ParseHex(src, pos, 4, 0).result.Ok?
    ensures pos + 4 <= |src| && IsHex4(src[pos..pos + 4])
    ensures ParseHex(src, pos, 4, 0) == Parsed(pos + 4, Ok(Hex4Value(src[pos..pos + 4])))
  {
    HexSteps(src, pos, 4, 0);
    var v1 := HexValue(src[pos]);
    HexSteps(src, pos + 1, 3, v1);
    var v2 := v1 * 16 + HexValue(src[pos + 1]);
    HexSteps(src, pos + 2, 2, v2);
    var v3 := v2 * 16 + HexValue(src[pos + 2]);
    HexSteps(src, pos + 3, 1, v3);
    ReadHex(src, pos, src[pos..pos + 4]);
  }

  /** The escape that was read after a backslash and a `u`. */
  lemma FindEscape(src: Bytes, pos: nat) returns (p: Piece)
    requires pos + 2 <= |src| && src[pos] == BACKSLASH && src[pos + 1] == 0x75
    requires ParseUnicode(src, pos + 2).result.Ok?
    ensures PieceOk(p) && Stands(src, pos, WritePiece(p))
    ensures ParseUnicode(src, pos + 2) == Parsed(pos + |WritePiece(p)|, Ok(PieceScalar(p)))
  {
    hide ParseHex, Hex4Value, IsHex4;
    FindHex(src, pos + 2);
    var high := src[pos + 2..pos + 6];
    assert src[pos..pos + 2] == [BACKSLASH, 0x75];
    StandsSlice(src, pos, pos + 2);
    StandsSlice(src, pos + 2, pos + 6);
    StandsJoin(src, pos, [BACKSLASH, 0x75], high);
    if IsHigh(Hex4Value(high)) {
      FindHex(src, pos + 8);
      var low := src[pos + 8..pos + 12];
      assert src[pos + 6..pos + 8] == [BACKSLASH, 0x75];
      StandsSlice(src, pos + 6, pos + 8);
      StandsSlice(src, pos + 8, pos + 12);
      StandsJoin(src, pos, [BACKSLASH, 0x75] + high, [BACKSLASH, 0x75]);
      StandsJoin(src, pos, [BACKSLASH, 0x75] + high + [BACKSLASH, 0x75], low);
      p := Surrogates(high, low);
    } else {
      p := Unit(high);
    }
  }

  /** The first character of the rest of a string. */
  lemma FindPiece(src: Bytes, pos: nat, out: Bytes) returns (p: Piece)
    requires Boundary(src, pos) && pos < |src| && src[pos] != QUOTE && ParseChars(src, pos, out).result.Ok?
    ensures PieceOk(p) && Stands(src, pos, WritePiece(p)) && Boundary(src, pos + |WritePiece(p)|)
  {
    hide Valid, ParseChars, ParseUnicode, EncodeOne, CharLength;
    if src[pos] == BACKSLASH {
      EscapeRead(src, pos, out);
      NextBoundary(src, pos);
      NextBoundary(src, pos + 1);
      if ShortEscape(src[pos + 1]).Some? {
        p := Short(src[pos + 1]);
        assert src[pos..pos + 2] == [BACKSLASH, src[pos + 1]];
      } else {
        p := FindEscape(src, pos);
        UnicodeKeepsBoundary(src, pos + 2);
      }
    } else {
      p := FindRaw(src, pos);
    }
  }

  lemma FindRaw(src: Bytes, pos: nat) returns (p: Piece)
    requires Boundary(src, pos) && pos < |src| && src[pos] != QUOTE && src[pos] != BACKSLASH
    ensures PieceOk(p) && Stands(src, pos, WritePiece(p)) && Boundary(src, pos + |WritePiece(p)|)
  {
    var n := CharLength(src[pos..]);
    assert src[pos..][n..] == src[pos + n..];
    var c := FindCharacter(src[pos..]);
    assert src[pos..][..n] == src[pos..pos + n];
    assert EncodeOne(c)[0] == src[pos];
    p := Raw(c);
  }

  lemma EscapeRead(src: Bytes, pos: nat, out: Bytes)
    requires pos < |src| && src[pos] == BACKSLASH && ParseChars(src, pos, out).result.Ok?
    ensures pos + 1 < |src|
    ensures ShortEscape(src[pos + 1]).Some? || (src[pos + 1] == 0x75 && ParseUnicode(src, pos + 2).result.Ok?)
    ensures src[pos + 1] < 0x80
  {
    hide ParseUnicode, Valid, EncodeOne;
  }

  lemma CharsEnd(src: Bytes, pos: nat, out: Bytes)
    requires pos <= |src| && ParseChars(src, pos, out).result.Ok?
    ensures pos < |src|
    ensures src[pos] == QUOTE ==> ParseChars(src, pos, out) == Parsed(pos + 1, Ok(out))
  {
    hide ParseUnicode, Valid, EncodeOne;
  }

  /** The characters of the rest of a string, and its closing quote. */
  lemma {:induction false} FindPieces(src: Bytes, pos: nat, out: Bytes) returns (ps: seq<Piece>)
    requires Boundary(src, pos) && ParseChars(src, pos, out).result.Ok?
    ensures PiecesOk(ps) && Stands(src, pos, WritePieces(ps)) && Stands(src, pos + |WritePieces(ps)|, [QUOTE])
    ensures ParseChars(src, pos, out) == Parsed(pos + |WritePieces(ps)| + 1, Ok(out + Meaning(ps)))
    decreases |src| - pos
  {
    hide ParseChars, PieceOk, WritePiece, EncodeOne, PieceScalar, Boundary;
    BoundaryFits(src, pos);
    CharsEnd(src, pos, out);
    if src[pos] == QUOTE {
      ps := [];
      assert src[pos..pos] == [];
      StandsSlice(src, pos, pos + 1);
      assert src[pos..pos + 1] == [QUOTE];
      assert out + Meaning([]) == out;
    } else {
      var p := FindPiece(src, pos, out);
      ReadPiece(src, pos, p, out);
      var c := EncodeOne(PieceScalar(p));
      var rest := FindPieces(src, pos + |WritePiece(p)|, out + c);
      ps := [p] + rest;
      PiecesStep(p, rest);
      StandsJoin(src, pos, WritePiece(p), WritePieces(rest));
      assert out + c + Meaning(rest) == out + (c + Meaning(rest));
    }
  }

  lemma BoundaryFits(src: Bytes, pos: nat)
    requires Boundary(src, pos)
    ensures pos <= |src|
  {
  }

  lemma PiecesStep(p: Piece, rest: seq<Piece>)
    requires PieceOk(p) && PiecesOk(rest)
    ensures PiecesOk([p] + rest) && WritePieces([p] + rest) == WritePiece(p) + WritePieces(rest)
    ensures Meaning([p] + rest) == EncodeOne(PieceScalar(p)) + Meaning(rest)
  {
    hide PieceOk, WritePiece, EncodeOne, PieceScalar;
    assert ([p] + rest)[1..] == rest;
  }

  lemma FindString(src: Bytes, pos: nat) returns (ps: seq<Piece>)
    requires Boundary(src, pos) && ParseString(src, pos).result.Ok?
    ensures PiecesOk(ps) && Stands(src, pos, WriteString(ps))
    ensures ParseString(src, pos) == Parsed(pos + |WriteString(ps)|, Ok(Meaning(ps)))
  {
    hide ParseChars, PiecesOk, WritePieces, Meaning, Boundary;
    BoundaryFits(src, pos);
    NextBoundary(src, pos);
    ps := FindPieces(src, pos + 1, []);
    assert src[pos..pos + 1] == [QUOTE];
    StandsSlice(src, pos, pos + 1);
    StandsJoin(src, pos, [QUOTE], WritePieces(ps));
    StandsJoin(src, pos, [QUOTE] + WritePieces(ps), [QUOTE]);
    assert [] + Meaning(ps) == Meaning(ps);
  }

  // ----- Values -----

  /** The document that was read, after the white space before it. */
  lemma {:induction false} FindDoc(src: Bytes, pos: nat) returns (d: Doc)
    requires Boundary(src, pos) && ParseValue(src, pos).result.Ok?
    ensures DocOk(d) && Stands(src, SkipSpace(src, pos), Write(d))
    ensures ParseValue(src, pos) == Parsed(SkipSpace(src, pos) + |Write(d)|, Ok(Value(d)))
    decreases |src| - pos, 1
  {
    hide ParseItems, ParseFields, ParseString, ParseNumber, Boundary, SkipSpace, Stands;
    hide WriteItems, WriteMembers, WriteString, ItemsOk, MembersOk, PiecesOk, LooseNumber, IsGap;
    hide ItemValues, MemberValues, Meaning, Valid;
    BoundaryFits(src, pos);
    SpaceKeepsBoundary(src, pos);
    var at := SkipSpace(src, pos);
    if src[at] == 0x7B {
      d := FindObject(src, pos);
    } else if src[at] == 0x5B {
      d := FindArray(src, pos);
    } else if src[at] == QUOTE {
      var ps := FindString(src, at);
      d := DStr(ps);
    } else if src[at] == 0x2D || Digit(src[at]) {
      FindNumber(src, at);
      var end := ParseNumber(src, at).pos;
      StandsSlice(src, at, end);
      d := DNumber(src[at..end]);
    } else {
      d := FindLiteral(src, pos);
    }
  }

  lemma FindLiteral(src: Bytes, pos: nat) returns (d: Doc)
    requires pos <= |src| && ParseValue(src, pos).result.Ok?
    requires
      var b := src[SkipSpace(src, pos)];
      b != 0x7B && b != 0x5B && b != QUOTE && b != 0x2D && !Digit(b)
    ensures DocOk(d) && Stands(src, SkipSpace(src, pos), Write(d))
    ensures ParseValue(src, pos) == Parsed(SkipSpace(src, pos) + |Write(d)|, Ok(Value(d)))
  {
    hide ParseItems, ParseFields, ParseString, ParseNumber, SkipSpace;
    var b := src[SkipSpace(src, pos)];
    d := if b == 0x74 then DTrue else if b == 0x66 then DFalse else DNull;
  }

  lemma ArrayRead(src: Bytes, pos: nat)
    requires pos <= |src| && ParseValue(src, pos).result.Ok? && src[SkipSpace(src, pos)] == 0x5B
    ensures
      var at := SkipSpace(src, pos);
      var first := SkipSpace(src, at + 1);
      ParseValue(src, pos) ==
        if Peeks(src, first, 0x5D) then Parsed(first + 1, Ok(Array([]))) else ParseItems(src, first, [])
  {
    hide ParseItems, ParseFields, ParseString, ParseNumber, SkipSpace;
  }

  lemma ObjectRead(src: Bytes, pos: nat)
    requires pos <= |src| && ParseValue(src, pos).result.Ok? && src[SkipSpace(src, pos)] == 0x7B
    ensures
      var at := SkipSpace(src, pos);
      var first := SkipSpace(src, at + 1);
      ParseValue(src, pos) ==
        if Peeks(src, first, 0x7D) then Parsed(first + 1, Ok(Object([]))) else ParseFields(src, first, [])
  {
    hide ParseItems, ParseFields, ParseString, ParseNumber, SkipSpace;
  }

  /** Brackets or braces with nothing between them but white space. */
  lemma FindEmpty(src: Bytes, at: nat, open: Byte, close: Byte)
    requires at < |src| && src[at] == open && Peeks(src, SkipSpace(src, at + 1), close)
    ensures
      var first := SkipSpace(src, at + 1);
      IsGap(src[at + 1..first]) && Stands(src, at, [open] + src[at + 1..first] + [close])
  {
    hide SkipSpace, IsGap;
    var first := SkipSpace(src, at + 1);
    FindGap(src, at + 1);
    assert src[at..at + 1] == [open] && src[first..first + 1] == [close];
    StandsSlice(src, at, at + 1);
    StandsSlice(src, at + 1, first);
    StandsSlice(src, first, first + 1);
    StandsJoin(src, at, [open], src[at + 1..first]);
    StandsJoin(src, at, [open] + src[at + 1..first], [close]);
  }

  lemma {:induction false} FindArray(src: Bytes, pos: nat) returns (d: Doc)
    requires Boundary(src, pos) && ParseValue(src, pos).result.Ok? && src[SkipSpace(src, pos)] == 0x5B
    ensures DocOk(d) && Stands(src, SkipSpace(src, pos), Write(d))
    ensures ParseValue(src, pos) == Parsed(SkipSpace(src, pos) + |Write(d)|, Ok(Value(d)))
    decreases |src| - pos, 0
  {
    hide ParseItems, ParseValue, Boundary, SkipSpace, Stands, WriteItems, ItemsOk, IsGap, ItemValues;
    BoundaryFits(src, pos);
    ArrayRead(src, pos);
    SpaceKeepsBoundary(src, pos);
    var at := SkipSpace(src, pos);
    NextBoundary(src, at);
    SpaceKeepsBoundary(src, at + 1);
    var first := SkipSpace(src, at + 1);
    if Peeks(src, first, 0x5D) {
      FindEmpty(src, at, 0x5B, 0x5D);
      d := DEmptyArray(src[at + 1..first]);
    } else {
      var items := FindItems(src, first, []);
      FindGap(src, at + 1);
      var padded := PadItems(src, at + 1, first, items);
      OpenBracket(src, at, 0x5B, WriteItems(padded));
      assert [] + ItemValues(items) == ItemValues(items);
      d := DArray(padded);
    }
  }

  lemma OpenBracket(src: Bytes, at: nat, open: Byte, rest: Bytes)
    requires at < |src| && src[at] == open && Stands(src, at + 1, rest)
    ensures Stands(src, at, [open] + rest)
  {
    assert src[at..at + 1] == [open];
    StandsSlice(src, at, at + 1);
    StandsJoin(src, at, [open], rest);
  }

  /** The items with the white space from `pos` on before them. */
  lemma PadItems(src: Bytes, pos: nat, first: nat, items: Items) returns (padded: Items)
    requires pos <= first <= |src| && IsGap(src[pos..first]) && ItemsOk(items) && Stands(src, first, WriteItems(items))
    ensures ItemsOk(padded) && Stands(src, pos, WriteItems(padded)) && ItemValues(padded) == ItemValues(items)
    ensures pos + |WriteItems(padded)| == first + |WriteItems(items)|
  {
    hide Stands, Write, DocOk, Value;
    var gap := src[pos..first];
    padded := items.(before := gap + items.before);
    StandsSlice(src, pos, first);
    StandsJoin(src, pos, gap, WriteItems(items));
    var doc, after, tail := Write(items.doc), items.after, ItemsTail(items);
    assert ItemsTail(padded) == tail;
    assert gap + (items.before + doc + after + tail) == gap + items.before + doc + after + tail;
  }

  lemma ItemsRead(src: Bytes, pos: nat, done: seq<Json>)
    requires pos <= |src| && ParseItems(src, pos, done).result.Ok?
    ensures
      var v := ParseValue(src, pos);
      && v.result.Ok?
      && var at := SkipSpace(src, v.pos);
        && at < |src| && (src[at] == 0x2C || src[at] == 0x5D)
        && ParseItems(src, pos, done) ==
             if src[at] == 0x2C then ParseItems(src, SkipSpace(src, at + 1), done + [v.result.value])
             else Parsed(at + 1, Ok(Array(done + [v.result.value])))
  {
    hide ParseValue, SkipSpace;
  }

  /** The parts of an item, put together. */
  lemma JoinItem(src: Bytes, pos: nat, before: Bytes, doc: Bytes, after: Bytes, tail: Bytes)
    requires Stands(src, pos, before) && Stands(src, pos + |before|, doc)
    requires Stands(src, pos + |before| + |doc|, after) && Stands(src, pos + |before| + |doc| + |after|, tail)
    ensures Stands(src, pos, before + doc + after + tail)
  {
    hide Stands;
    StandsJoin(src, pos, before, doc);
    StandsJoin(src, pos, before + doc, after);
    StandsJoin(src, pos, before + doc + after, tail);
  }

  lemma LastItemIs(before: Bytes, d: Doc, after: Bytes)
    requires IsGap(before) && DocOk(d) && IsGap(after)
    ensures
      var items := LastItem(before, d, after);
      && ItemsOk(items) && ItemValues(items) == [Value(d)]
      && WriteItems(items) == before + Write(d) + after + [0x5D]
  {
    hide IsGap, DocOk, Write, Value;
  }

  lemma MoreItemsAre(before: Bytes, d: Doc, after: Bytes, rest: Items)
    requires IsGap(before) && DocOk(d) && IsGap(after) && ItemsOk(rest)
    ensures
      var items := MoreItems(before, d, after, rest);
      && ItemsOk(items) && ItemValues(items) == [Value(d)] + ItemValues(rest)
      && WriteItems(items) == before + Write(d) + after + ([0x2C] + WriteItems(rest))
  {
    hide IsGap, DocOk, Write, Value;
  }

  lemma {:induction false} FindItems(src: Bytes, pos: nat, done: seq<Json>) returns (items: Items)
    requires Boundary(src, pos) && ParseItems(src, pos, done).result.Ok?
    ensures ItemsOk(items) && Stands(src, pos, WriteItems(items))
    ensures ParseItems(src, pos, done) == Parsed(pos + |WriteItems(items)|, Ok(Array(done + ItemValues(items))))
    decreases |src| - pos, 2
  {
    hide ParseItems, ParseValue, Boundary, SkipSpace, Stands, Write, DocOk, IsGap, Value;
    hide ItemsOk, ItemValues, WriteItems;
    BoundaryFits(src, pos);
    ItemsRead(src, pos, done);
    ValueIsUtf8(src, pos);
    var d := FindDoc(src, pos);
    var v := ParseValue(src, pos);
    var start, at := SkipSpace(src, pos), SkipSpace(src, v.pos);
    FindGap(src, pos);
    FindGap(src, v.pos);
    StandsSlice(src, pos, start);
    StandsSlice(src, v.pos, at);
    var before, after := src[pos..start], src[v.pos..at];
    if src[at] == 0x5D {
      items := LastItem(before, d, after);
      LastItemIs(before, d, after);
      OneByte(src, at, 0x5D);
      JoinItem(src, pos, before, Write(d), after, [0x5D]);
    } else {
      SpaceKeepsBoundary(src, v.pos);
      NextBoundary(src, at);
      SpaceKeepsBoundary(src, at + 1);
      var first := SkipSpace(src, at + 1);
      var rest := FindItems(src, first, done + [v.result.value]);
      FindGap(src, at + 1);
      var padded := PadItems(src, at + 1, first, rest);
      items := MoreItems(before, d, after, padded);
      MoreItemsAre(before, d, after, padded);
      OpenBracket(src, at, 0x2C, WriteItems(padded));
      JoinItem(src, pos, before, Write(d), after, [0x2C] + WriteItems(padded));
      Regroup(done, v.result.value, ItemValues(rest));
    }
  }

  lemma OneByte(src: Bytes, at: nat, b: Byte)
    requires at < |src| && src[at] == b
    ensures Stands(src, at, [b])
  {
    assert src[at..at + 1] == [b];
  }

  lemma {:induction false} FindObject(src: Bytes, pos: nat) returns (d: Doc)
    requires Boundary(src, pos) && ParseValue(src, pos).result.Ok? && src[SkipSpace(src, pos)] == 0x7B
    ensures DocOk(d) && Stands(src, SkipSpace(src, pos), Write(d))
    ensures ParseValue(src, pos) == Parsed(SkipSpace(src, pos) + |Write(d)|, Ok(Value(d)))
    decreases |src| - pos, 0
  {
    hide ParseFields, ParseValue, Boundary, SkipSpace, Stands, WriteMembers, MembersOk, IsGap, MemberValues;
    BoundaryFits(src, pos);
    ObjectRead(src, pos);
    SpaceKeepsBoundary(src, pos);
    var at := SkipSpace(src, pos);
    NextBoundary(src, at);
    SpaceKeepsBoundary(src, at + 1);
    var first := SkipSpace(src, at + 1);
    if Peeks(src, first, 0x7D) {
      FindEmpty(src, at, 0x7B, 0x7D);
      d := DEmptyObject(src[at + 1..first]);
    } else {
      var members := FindMembers(src, first, []);
      FindGap(src, at + 1);
      var padded := PadMembers(src, at + 1, first, members);
      OpenBracket(src, at, 0x7B, WriteMembers(padded));
      assert [] + MemberValues(members) == MemberValues(members);
      d := DObject(padded);
    }
  }

  /** The members with the white space from `pos` on before them. */
  lemma PadMembers(src: Bytes, pos: nat, first: nat, members: Members) returns (padded: Members)
    requires pos <= first <= |src| && IsGap(src[pos..first])
    requires MembersOk(members) && Stands(src, first, WriteMembers(members))
    ensures MembersOk(padded) && Stands(src, pos, WriteMembers(padded))
    ensures MemberValues(padded) == MemberValues(members)
    ensures pos + |WriteMembers(padded)| == first + |WriteMembers(members)|
  {
    hide Stands, Write, DocOk, Value, PiecesOk, WriteString, Meaning;
    var gap, k := src[pos..first], members.key;
    padded := members.(key := Key(gap + k.before, k.pieces, k.after));
    StandsSlice(src, pos, first);
    StandsJoin(src, pos, gap, WriteMembers(members));
    var key, rest := WriteString(k.pieces), [0x3A] + AfterColon(members);
    assert AfterColon(padded) == AfterColon(members);
    assert gap + (k.before + key + k.after + rest) == gap + k.before + key + k.after + rest;
  }

  lemma FieldRead(src: Bytes, pos: nat)
    requires pos <= |src| && ParseField(src, pos).result.Ok?
    ensures
      var key := ParseString(src, SkipSpace(src, pos));
      && key.result.Ok?
      && var colon := SkipSpace(src, key.pos);
        && Peeks(src, colon, 0x3A)
        && var v := ParseValue(src, colon + 1);
          v.result.Ok? && ParseField(src, pos) == Parsed(v.pos, Ok((key.result.value, v.result.value)))
  {
    hide ParseValue, SkipSpace, ParseString;
  }

  lemma FieldsRead(src: Bytes, pos: nat, done: seq<(Bytes, Json)>)
    requires pos <= |src| && ParseFields(src, pos, done).result.Ok?
    ensures
      var field := ParseField(src, pos);
      && field.result.Ok?
      && var at := SkipSpace(src, field.pos);
        && at < |src| && (src[at] == 0x2C || src[at] == 0x7D)
        && ParseFields(src, pos, done) ==
             if src[at] == 0x2C then ParseFields(src, SkipSpace(src, at + 1), done + [field.result.value])
             else Parsed(at + 1, Ok(Object(done + [field.result.value])))
  {
    hide ParseField, SkipSpace;
  }

  /** A key with its colon, read from `pos` to just after the colon. */
  lemma FindKey(src: Bytes, pos: nat) returns (k: Key)
    requires Boundary(src, pos) && ParseString(src, SkipSpace(src, pos)).result.Ok?
    requires Peeks(src, SkipSpace(src, ParseString(src, SkipSpace(src, pos)).pos), 0x3A)
    ensures KeyOk(k) && ParseString(src, SkipSpace(src, pos)).result == Ok(Meaning(k.pieces))
    ensures
      var colon := SkipSpace(src, ParseString(src, SkipSpace(src, pos)).pos);
      && Boundary(src, colon + 1)
      && Stands(src, pos, k.before + WriteString(k.pieces) + k.after)
      && colon == pos + |k.before + WriteString(k.pieces) + k.after|
  {
    hide ParseString, Boundary, SkipSpace, Stands, WriteString, PiecesOk, Meaning, IsGap;
    BoundaryFits(src, pos);
    SpaceKeepsBoundary(src, pos);
    var start := SkipSpace(src, pos);
    StringIsUtf8(src, start);
    var ps := FindString(src, start);
    var end := ParseString(src, start).pos;
    SpaceKeepsBoundary(src, end);
    var colon := SkipSpace(src, end);
    NextBoundary(src, colon);
    FindGap(src, pos);
    FindGap(src, end);
    StandsSlice(src, pos, start);
    StandsSlice(src, end, colon);
    k := Key(src[pos..start], ps, src[end..colon]);
    StandsJoin(src, pos, k.before, WriteString(ps));
    StandsJoin(src, pos, k.before + WriteString(ps), k.after);
  }

  /** A member from its key on, once the parts are known. */
  lemma JoinMember(src: Bytes, pos: nat, colon: nat, k: Key, before: Bytes, doc: Bytes, after: Bytes, tail: Bytes)
    requires Stands(src, pos, k.before + WriteString(k.pieces) + k.after) && Peeks(src, colon, 0x3A)
    requires colon == pos + |k.before + WriteString(k.pieces) + k.after|
    requires Stands(src, colon + 1, before + doc + after + tail)
    ensures Stands(src, pos, k.before + WriteString(k.pieces) + k.after + ([0x3A] + (before + doc + after + tail)))
  {
    hide Stands, WriteString;
    OpenBracket(src, colon, 0x3A, before + doc + after + tail);
    StandsJoin(src, pos, k.before + WriteString(k.pieces) + k.after, [0x3A] + (before + doc + after + tail));
  }

  lemma LastMemberIs(k: Key, before: Bytes, d: Doc, after: Bytes)
    requires KeyOk(k) && IsGap(before) && DocOk(d) && IsGap(after)
    ensures
      var members := LastMember(k, before, d, after);
      && MembersOk(members) && MemberValues(members) == [(Meaning(k.pieces), Value(d))]
      && WriteMembers(members) == k.before + WriteString(k.pieces) + k.after
                                  + ([0x3A] + (before + Write(d) + after + [0x7D]))
  {
    hide IsGap, DocOk, Write, Value, WriteString, PiecesOk, Meaning;
    var members := LastMember(k, before, d, after);
    assert MembersTail(members) == [0x7D];
    assert AfterColon(members) == before + Write(d) + after + [0x7D];
  }

  lemma MoreMembersAre(k: Key, before: Bytes, d: Doc, after: Bytes, rest: Members)
    requires KeyOk(k) && IsGap(before) && DocOk(d) && IsGap(after) && MembersOk(rest)
    ensures
      var members := MoreMembers(k, before, d, after, rest);
      && MembersOk(members) && MemberValues(members) == [(Meaning(k.pieces), Value(d))] + MemberValues(rest)
      && WriteMembers(members) == k.before + WriteString(k.pieces) + k.after
                                  + ([0x3A] + (before + Write(d) + after + ([0x2C] + WriteMembers(rest))))
  {
    hide IsGap, DocOk, Write, Value, WriteString, PiecesOk, Meaning;
    var members := MoreMembers(k, before, d, after, rest);
    assert MembersTail(members) == [0x2C] + WriteMembers(rest);
    assert AfterColon(members) == before + Write(d) + after + ([0x2C] + WriteMembers(rest));
  }

  lemma KeyParts(k: Key)
    requires KeyOk(k)
    ensures PiecesOk(k.pieces)
  {
    hide PiecesOk;
  }

  lemma {:induction false} FindMembers(src: Bytes, pos: nat, done: seq<(Bytes, Json)>) returns (members: Members)
    requires Boundary(src, pos) && ParseFields(src, pos, done).result.Ok?
    ensures MembersOk(members) && Stands(src, pos, WriteMembers(members))
    ensures ParseFields(src, pos, done)
         == Parsed(pos + |WriteMembers(members)|, Ok(Object(done + MemberValues(members))))
    decreases |src| - pos, 2
  {
    hide ParseFields, ParseField, ParseValue, ParseString, Boundary, SkipSpace, Stands, Write, DocOk, IsGap, Value;
    hide WriteString, PiecesOk, Meaning, KeyOk, MembersOk, MemberValues, WriteMembers;
    BoundaryFits(src, pos);
    FieldsRead(src, pos, done);
    FieldRead(src, pos);
    var k := FindKey(src, pos);
    KeyParts(k);
    var colon := SkipSpace(src, ParseString(src, SkipSpace(src, pos)).pos);
    ValueIsUtf8(src, colon + 1);
    var d := FindDoc(src, colon + 1);
    var v := ParseValue(src, colon + 1);
    var start, at := SkipSpace(src, colon + 1), SkipSpace(src, v.pos);
    FindGap(src, colon + 1);
    FindGap(src, v.pos);
    StandsSlice(src, colon + 1, start);
    StandsSlice(src, v.pos, at);
    var before, after := src[colon + 1..start], src[v.pos..at];
    if src[at] == 0x7D {
      members := LastMember(k, before, d, after);
      LastMemberIs(k, before, d, after);
      OneByte(src, at, 0x7D);
      JoinItem(src, colon + 1, before, Write(d), after, [0x7D]);
      JoinMember(src, pos, colon, k, before, Write(d), after, [0x7D]);
    } else {
      SpaceKeepsBoundary(src, v.pos);
      NextBoundary(src, at);
      SpaceKeepsBoundary(src, at + 1);
      var first := SkipSpace(src, at + 1);
      var field := (Meaning(k.pieces), v.result.value);
      var rest := FindMembers(src, first, done + [field]);
      FindGap(src, at + 1);
      var padded := PadMembers(src, at + 1, first, rest);
      members := MoreMembers(k, before, d, after, padded);
      MoreMembersAre(k, before, d, after, padded);
      OpenBracket(src, at, 0x2C, WriteMembers(padded));
      JoinItem(src, colon + 1, before, Write(d), after, [0x2C] + WriteMembers(padded));
      JoinMember(src, pos, colon, k, before, Write(d), after, [0x2C] + WriteMembers(padded));
      Regroup(done, field, MemberValues(rest));
    }
  }

  // ----- The language of the reader -----

  /** The text is a document with white space around it. */
  predicate IsText(src: Bytes, before: Bytes, d: Doc, after: Bytes) {
    IsGap(before) && DocOk(d) && IsGap(after) && src == before + Write(d) + after
  }

  /** What the reader has taken, as it was written. */
  lemma FindText(src: Bytes) returns (before: Bytes, d: Doc, after: Bytes)
    requires Valid(src) && ParseDocument(src).result.Ok?
    ensures IsText(src, before, d, after) && ParseDocument(src).result == Ok(Value(d))
  {
    hide ParseValue, SkipSpace, IsGap, DocOk, Write, Value, Valid;
    assert src[0..] == src;
    d := FindDoc(src, 0);
    var start, end := SkipSpace(src, 0), ParseValue(src, 0).pos;
    FindGap(src, 0);
    FindGap(src, end);
    before, after := src[0..start], src[end..|src|];
    StandsText(src, start, Write(d));
    assert src == src[0..start] + src[start..end] + src[end..|src|];
  }

  /** The reader takes exactly the texts that can be written, and reads each as what
      was written. */
  lemma ReadsExactly(src: Bytes)
    requires Valid(src)
    ensures ParseDocument(src).result.Ok? <==> exists before, d, after :: IsText(src, before, d, after)
    ensures forall before, d, after :: IsText(src, before, d, after) ==>
              ParseDocument(src) == Parsed(|src|, Ok(Value(d)))
  {
    hide ParseDocument, IsGap, DocOk, Write, Value, Valid;
    if ParseDocument(src).result.Ok? {
      var before, d, after := FindText(src);
    }
    forall before, d, after | IsText(src, before, d, after)
      ensures ParseDocument(src) == Parsed(|src|, Ok(Value(d)))
    {
      RoundTrip(before, d, after);
    }
  }
}
