/** Exactly which texts keep their value when they are minified. */
module MinifierExact {
  import opened Json
  import opened JsonExact
  import opened JsonText
  import opened Minifier
  import opened MinifierMeaning
  import opened Utf8

  /** A newline stands between the quotes of a string; `inside` says whether the text
      starts between quotes. */
  predicate Breaks(text: Text, inside: bool)
    decreases |text|
  {
    && text != []
    && if !inside then Breaks(text[1..], text[0] == QUOTE)
       else if text[0] == BACKSLASH then |text| > 1 && Breaks(text[2..], true)
       else if text[0] == QUOTE then Breaks(text[1..], false)
       else text[0] == NEWLINE || Breaks(text[1..], true)
  }

  // ----- Outside strings -----

  lemma {:induction false} SkipPlain(t: Text, rest: Text)
    requires QUOTE !in t
    ensures Breaks(t + rest, false) <==> Breaks(rest, false)
    decreases |t|
  {
    if t == [] {
      assert t + rest == rest;
    } else {
      assert (t + rest)[0] == t[0] && (t + rest)[1..] == t[1..] + rest;
      SkipPlain(t[1..], rest);
    }
  }

  // ----- Inside strings -----

  lemma {:induction false} SkipInside(t: Text, rest: Text)
    requires QUOTE !in t && BACKSLASH !in t && NEWLINE !in t
    ensures Breaks(t + rest, true) <==> Breaks(rest, true)
    decreases |t|
  {
    if t == [] {
      assert t + rest == rest;
    } else {
      assert (t + rest)[0] == t[0] && (t + rest)[1..] == t[1..] + rest;
      SkipInside(t[1..], rest);
    }
  }

  lemma SkipEscape(e: Scalar, rest: Text)
    ensures Breaks([BACKSLASH, e] + rest, true) <==> Breaks(rest, true)
  {
    assert ([BACKSLASH, e] + rest)[2..] == rest;
  }

  lemma HexInside(h: Bytes)
    requires IsHex4(h)
    ensures QUOTE !in AsText(h) && BACKSLASH !in AsText(h) && NEWLINE !in AsText(h)
  {
  }

  lemma BreakUnit(h: Bytes, rest: Text)
    requires IsHex4(h)
    ensures Breaks([BACKSLASH, 0x75] + (AsText(h) + rest), true) <==> Breaks(rest, true)
  {
    hide Breaks, IsHex4, AsText;
    HexInside(h);
    SkipInside(AsText(h), rest);
    SkipEscape(0x75, AsText(h) + rest);
  }

  lemma BreakSurrogates(high: Bytes, low: Bytes, rest: Text)
    requires IsHex4(high) && IsHex4(low)
    ensures Breaks(PieceText(Surrogates(high, low)) + rest, true) <==> Breaks(rest, true)
  {
    hide Breaks, IsHex4;
    var tail := [BACKSLASH, 0x75] + (AsText(low) + rest);
    BreakUnit(low, rest);
    BreakUnit(high, tail);
    assert PieceText(Surrogates(high, low)) + rest == [BACKSLASH, 0x75] + (AsText(high) + tail);
  }

  lemma BreakPiece(p: Piece, rest: Text)
    requires PieceOk(p)
    ensures Breaks(PieceText(p) + rest, true) <==> p == Raw(NEWLINE) || Breaks(rest, true)
  {
    hide Breaks, Hex4Value, IsHigh, IsLow, IsHex4;
    match p
    case Raw(c) => BreakRaw(c, rest);
    case Short(letter) => SkipEscape(letter, rest);
    case Unit(hex) =>
      BreakUnit(hex, rest);
      assert PieceText(p) + rest == [BACKSLASH, 0x75] + (AsText(hex) + rest);
    case Surrogates(high, low) => BreakSurrogates(high, low, rest);
  }

  lemma BreakRaw(c: Scalar, rest: Text)
    requires c != QUOTE && c != BACKSLASH
    ensures Breaks([c] + rest, true) <==> c == NEWLINE || Breaks(rest, true)
  {
    assert ([c] + rest)[1..] == rest;
  }

  lemma {:induction false} BreakPieces(ps: seq<Piece>, rest: Text)
    requires PiecesOk(ps)
    ensures Breaks(PieceTexts(ps) + ([QUOTE] + rest), true) <==> Raw(NEWLINE) in ps || Breaks(rest, false)
    decreases |ps|
  {
    hide Breaks, PieceText, PieceOk;
    if ps == [] {
      assert PieceTexts(ps) + ([QUOTE] + rest) == [QUOTE] + rest;
      CloseQuote(rest);
    } else {
      BreakPieces(ps[1..], rest);
      assert ps == [ps[0]] + ps[1..];
      Regrouped(PieceText(ps[0]), PieceTexts(ps[1..]), [QUOTE] + rest);
      BreakPiece(ps[0], PieceTexts(ps[1..]) + ([QUOTE] + rest));
    }
  }

  lemma CloseQuote(rest: Text)
    ensures Breaks([QUOTE] + rest, true) <==> Breaks(rest, false)
    ensures Breaks([QUOTE] + rest, false) <==> Breaks(rest, true)
  {
    assert ([QUOTE] + rest)[1..] == rest;
  }

  // ----- Documents -----

  lemma GapPlain(gap: Bytes)
    requires IsGap(gap)
    ensures QUOTE !in AsText(gap)
  {
  }

  /** A token without quotes, and the gap before it. */
  lemma BreakToken(gap: Bytes, token: Text, rest: Text)
    requires IsGap(gap) && QUOTE !in token
    ensures Breaks(Flat([Cell(AsText(gap), token)]) + rest, false) <==> Breaks(rest, false)
  {
    hide Breaks, IsGap, AsText;
    FlatLast(AsText(gap), token);
    GapPlain(gap);
    SkipPlain(AsText(gap) + token, rest);
  }

  lemma BreakString(gap: Bytes, ps: seq<Piece>, rest: Text)
    requires IsGap(gap) && PiecesOk(ps)
    ensures Breaks(Flat(StringCells(gap, ps)) + rest, false) <==> Raw(NEWLINE) in ps || Breaks(rest, false)
  {
    hide Breaks, IsGap, AsText, PieceTexts, PieceCells, PiecesOk, Flat;
    FlatString(gap, ps);
    GapPlain(gap);
    var body := PieceTexts(ps) + ([QUOTE] + rest);
    assert AsText(gap) + StringText(ps) + rest == AsText(gap) + ([QUOTE] + body);
    SkipPlain(AsText(gap), [QUOTE] + body);
    CloseQuote(body);
    BreakPieces(ps, rest);
  }

  lemma FlatTwo(a: seq<Cell>, b: seq<Cell>, rest: Text)
    ensures Flat(a + b) + rest == Flat(a) + (Flat(b) + rest)
  {
    FlatConcat(a, b);
    Regrouped(Flat(a), Flat(b), rest);
  }

  lemma NumberPlain(text: Bytes)
    requires LooseNumber(text)
    ensures QUOTE !in AsText(text)
  {
  }

  lemma {:induction false} BreakDoc(gap: Bytes, d: Doc, rest: Text)
    requires IsGap(gap) && DocOk(d)
    ensures Breaks(Flat(Cells(gap, d)) + rest, false) <==> !Unbroken(d) || Breaks(rest, false)
    decreases d
  {
    hide Breaks, IsGap, AsText, Flat, StringCells, PiecesOk, LooseNumber, ItemCells, MemberCells;
    hide ItemsOk, MembersOk, UnbrokenItems, UnbrokenMembers;
    match d
    case DNull => LiteralsPlain(); BreakToken(gap, AsText(NULL), rest);
    case DTrue => LiteralsPlain(); BreakToken(gap, AsText(TRUE), rest);
    case DFalse => LiteralsPlain(); BreakToken(gap, AsText(FALSE), rest);
    case DNumber(text) => NumberPlain(text); BreakToken(gap, AsText(text), rest);
    case DStr(pieces) => BreakString(gap, pieces, rest);
    case DEmptyArray(inner) => BreakPair(gap, [0x5B], inner, [0x5D], rest);
    case DEmptyObject(inner) => BreakPair(gap, [0x7B], inner, [0x7D], rest);
    case DArray(items) =>
      FlatTwo([Cell(AsText(gap), [0x5B])], ItemCells(items), rest);
      BreakToken(gap, [0x5B], Flat(ItemCells(items)) + rest);
      BreakItems(items, rest);
    case DObject(members) =>
      FlatTwo([Cell(AsText(gap), [0x7B])], MemberCells(members), rest);
      BreakToken(gap, [0x7B], Flat(MemberCells(members)) + rest);
      BreakMembers(members, rest);
  }

  lemma LiteralsPlain()
    ensures QUOTE !in AsText(NULL) && QUOTE !in AsText(TRUE) && QUOTE !in AsText(FALSE)
  {
  }

  lemma BreakPair(gap: Bytes, token: Text, inner: Bytes, close: Text, rest: Text)
    requires IsGap(gap) && IsGap(inner) && QUOTE !in token && QUOTE !in close
    ensures Breaks(Flat([Cell(AsText(gap), token), Cell(AsText(inner), close)]) + rest, false) <==> Breaks(rest, false)
  {
    hide Breaks, IsGap, AsText, Flat;
    var one, two := [Cell(AsText(gap), token)], [Cell(AsText(inner), close)];
    assert one + two == [Cell(AsText(gap), token), Cell(AsText(inner), close)];
    FlatTwo(one, two, rest);
    BreakToken(gap, token, Flat(two) + rest);
    BreakToken(inner, close, rest);
  }

  lemma {:induction false} BreakItems(items: Items, rest: Text)
    requires ItemsOk(items)
    ensures Breaks(Flat(ItemCells(items)) + rest, false) <==> !UnbrokenItems(items) || Breaks(rest, false)
    decreases items
  {
    hide Breaks, IsGap, AsText, Flat, Cells, DocOk, Unbroken;
    var close := if items.LastItem? then [0x5D] else [0x2C];
    var doc, last := Cells(items.before, items.doc), [Cell(AsText(items.after), close)];
    if items.LastItem? {
      assert ItemCells(items) == doc + last;
      FlatTwo(doc, last, rest);
      BreakToken(items.after, close, rest);
      BreakDoc(items.before, items.doc, Flat(last) + rest);
    } else {
      var more := ItemCells(items.rest);
      assert ItemCells(items) == doc + (last + more);
      FlatTwo(doc, last + more, rest);
      FlatTwo(last, more, rest);
      BreakItems(items.rest, rest);
      BreakToken(items.after, close, Flat(more) + rest);
      BreakDoc(items.before, items.doc, Flat(last + more) + rest);
    }
  }

  lemma {:induction false} BreakMembers(members: Members, rest: Text)
    requires MembersOk(members)
    ensures Breaks(Flat(MemberCells(members)) + rest, false) <==> !UnbrokenMembers(members) || Breaks(rest, false)
    decreases members
  {
    hide Breaks, IsGap, AsText, Flat, Cells, DocOk, Unbroken, StringCells, PiecesOk;
    var k := members.key;
    var close := if members.LastMember? then [0x7D] else [0x2C];
    var name, colon := StringCells(k.before, k.pieces), [Cell(AsText(k.after), [0x3A])];
    var doc, last := Cells(members.before, members.doc), [Cell(AsText(members.after), close)];
    var tail := if members.LastMember? then last else last + MemberCells(members.rest);
    assert MemberCells(members) == name + (colon + (doc + tail));
    FlatTwo(name, colon + (doc + tail), rest);
    FlatTwo(colon, doc + tail, rest);
    FlatTwo(doc, tail, rest);
    BreakString(k.before, k.pieces, Flat(colon + (doc + tail)) + rest);
    BreakToken(k.after, [0x3A], Flat(doc + tail) + rest);
    BreakDoc(members.before, members.doc, Flat(tail) + rest);
    if members.LastMember? {
      BreakToken(members.after, close, rest);
    } else {
      FlatTwo(last, MemberCells(members.rest), rest);
      BreakToken(members.after, close, Flat(MemberCells(members.rest)) + rest);
      BreakMembers(members.rest, rest);
    }
  }

  lemma BreakFile(before: Bytes, d: Doc, after: Bytes)
    requires IsGap(before) && DocOk(d) && IsGap(after)
    ensures Breaks(File(before, d, after), false) <==> !Unbroken(d)
  {
    hide Breaks, IsGap, AsText, Flat, Cells, DocOk, Unbroken;
    BreakDoc(before, d, AsText(after));
    GapPlain(after);
    assert AsText(after) + [] == AsText(after);
    SkipPlain(AsText(after), []);
    NothingBreaks();
  }

  lemma NothingBreaks()
    ensures !Breaks([], false)
  {
  }

  /** Every text the reader takes, it takes minified too, and with the same value
      exactly when no newline stands between the quotes of a string. */
  lemma MinifyExactly(text: Text)
    requires ParseDocument(Encode(text)).result.Ok?
    ensures
      var small := Encode(Minify(text));
      && ParseDocument(small).result.Ok? && ParseDocument(small).pos == |small|
      && (ParseDocument(small).result == ParseDocument(Encode(text)).result <==> !Breaks(text, false))
  {
    hide ParseDocument, Encode, Minify, Breaks, File, Relaid, Unbroken, DocOk, IsGap, Write, Value;
    EncodeIsValid(text);
    var before, d, after := FindText(Encode(text));
    MinifyKeepsMeaning(before, d, after);
    EncodeInjective(text, File(before, d, after));
    BreakFile(before, d, after);
  }
}
