/** What the minifier does to a JSON text, and what it keeps. */
module MinifierMeaning {
  import opened Json
  import opened JsonRoundTrip
  import opened JsonText
  import opened Minifier
  import opened Outcome
  import opened Utf8

  // ----- Documents as cells -----

  /** A token and the white space before it. */
  datatype Cell = Cell(gap: Text, token: Text)

  function Flat(cells: seq<Cell>): Text {
    if cells == [] then [] else cells[0].gap + cells[0].token + Flat(cells[1..])
  }

  function PieceText(p: Piece): Text {
    if p.Raw? then [p.c] else AsText(WritePiece(p))
  }

  function PieceTexts(ps: seq<Piece>): Text {
    if ps == [] then [] else PieceText(ps[0]) + PieceTexts(ps[1..])
  }

  function StringText(ps: seq<Piece>): Text {
    [QUOTE] + PieceTexts(ps) + [QUOTE]
  }

  /** A character that stands for itself and that trimming a line can remove. */
  predicate IsBlank(p: Piece) {
    p.Raw? && White(p.c)
  }

  /** The rest of a string after the blanks `run`: one cell for every other character
      and one for the closing quote. */
  function PieceCells(run: Text, ps: seq<Piece>): seq<Cell>
    decreases |ps|
  {
    if ps == [] then [Cell(run, [QUOTE])]
    else if IsBlank(ps[0]) then PieceCells(run + [ps[0].c], ps[1..])
    else [Cell(run, PieceText(ps[0]))] + PieceCells([], ps[1..])
  }

  function StringCells(gap: Bytes, ps: seq<Piece>): seq<Cell> {
    [Cell(AsText(gap), [QUOTE])] + PieceCells([], ps)
  }

  /** The tokens of a document that white space `gap` precedes. */
  function Cells(gap: Bytes, d: Doc): seq<Cell>
    decreases d
  {
    var g := AsText(gap);
    match d
    case DNull => [Cell(g, AsText(NULL))]
    case DTrue => [Cell(g, AsText(TRUE))]
    case DFalse => [Cell(g, AsText(FALSE))]
    case DNumber(text) => [Cell(g, AsText(text))]
    case DStr(pieces) => StringCells(gap, pieces)
    case DEmptyArray(inner) => [Cell(g, [0x5B]), Cell(AsText(inner), [0x5D])]
    case DArray(items) => [Cell(g, [0x5B])] + ItemCells(items)
    case DEmptyObject(inner) => [Cell(g, [0x7B]), Cell(AsText(inner), [0x7D])]
    case DObject(members) => [Cell(g, [0x7B])] + MemberCells(members)
  }

  function ItemCells(items: Items): seq<Cell>
    decreases items
  {
    Cells(items.before, items.doc)
    + [Cell(AsText(items.after), if items.LastItem? then [0x5D] else [0x2C])]
    + if items.LastItem? then [] else ItemCells(items.rest)
  }

  function MemberCells(members: Members): seq<Cell>
    decreases members
  {
    StringCells(members.key.before, members.key.pieces)
    + [Cell(AsText(members.key.after), [0x3A])]
    + Cells(members.before, members.doc)
    + [Cell(AsText(members.after), if members.LastMember? then [0x7D] else [0x2C])]
    + if members.LastMember? then [] else MemberCells(members.rest)
  }

  /** The characters of a document. */
  function TextOf(d: Doc): Text {
    Flat(Cells([], d))
  }

  // ----- The minified layout -----

  function Squeezed(gap: Bytes): Bytes {
    if NEWLINE in gap then [] else gap
  }

  /** Blanks as characters of a string. */
  function Raws(run: Text): seq<Piece> {
    if run == [] then [] else [Raw(run[0])] + Raws(run[1..])
  }

  function SqueezedRun(run: Text): Text {
    if NEWLINE in run then [] else run
  }

  /** The string of the blanks `run` and the characters `ps`, without every run of
      blanks that holds a newline. */
  function Shrunk(run: Text, ps: seq<Piece>): seq<Piece>
    decreases |ps|
  {
    if ps == [] then Raws(SqueezedRun(run))
    else if IsBlank(ps[0]) then Shrunk(run + [ps[0].c], ps[1..])
    else Raws(SqueezedRun(run)) + ([ps[0]] + Shrunk([], ps[1..]))
  }

  /** The same document, without every gap that holds a newline; strings lose the
      blanks around a raw newline. */
  function Relaid(d: Doc): Doc {
    match d
    case DStr(pieces) => DStr(Shrunk([], pieces))
    case DEmptyArray(gap) => DEmptyArray(Squeezed(gap))
    case DArray(items) => DArray(RelaidItems(items))
    case DEmptyObject(gap) => DEmptyObject(Squeezed(gap))
    case DObject(members) => DObject(RelaidMembers(members))
    case _ => d
  }

  function RelaidItems(items: Items): Items {
    var before, doc, after := Squeezed(items.before), Relaid(items.doc), Squeezed(items.after);
    if items.LastItem? then LastItem(before, doc, after)
    else MoreItems(before, doc, after, RelaidItems(items.rest))
  }

  function RelaidMembers(members: Members): Members {
    var k := members.key;
    var key := Key(Squeezed(k.before), Shrunk([], k.pieces), Squeezed(k.after));
    var before, doc, after := Squeezed(members.before), Relaid(members.doc), Squeezed(members.after);
    if members.LastMember? then LastMember(key, before, doc, after)
    else MoreMembers(key, before, doc, after, RelaidMembers(members.rest))
  }

  // ----- Which documents keep their value -----

  /** No string holds a newline as itself. */
  predicate Unbroken(d: Doc) {
    match d
    case DStr(pieces) => Raw(NEWLINE) !in pieces
    case DArray(items) => UnbrokenItems(items)
    case DObject(members) => UnbrokenMembers(members)
    case _ => true
  }

  predicate UnbrokenItems(items: Items) {
    Unbroken(items.doc) && (items.MoreItems? ==> UnbrokenItems(items.rest))
  }

  predicate UnbrokenMembers(members: Members) {
    && Raw(NEWLINE) !in members.key.pieces
    && Unbroken(members.doc)
    && (members.MoreMembers? ==> UnbrokenMembers(members.rest))
  }

  predicate AllWhites(run: Text) {
    forall c :: c in run ==> White(c)
  }

  lemma {:induction false} RawsOk(run: Text)
    requires AllWhites(run)
    ensures PiecesOk(Raws(run)) && Meaning(Raws(run)) == Encode(run)
    decreases |run|
  {
    if run != [] {
      RawsOk(run[1..]);
      var rest := Raws(run[1..]);
      assert run[0] in run && PieceOk(Raw(run[0]));
      assert ([Raw(run[0])] + rest)[1..] == rest;
    }
  }

  lemma {:induction false} MeaningConcat(a: seq<Piece>, b: seq<Piece>)
    requires PiecesOk(a) && PiecesOk(b)
    ensures PiecesOk(a + b) && Meaning(a + b) == Meaning(a) + Meaning(b)
    decreases |a|
  {
    hide PieceOk, EncodeOne, PieceScalar;
    if a == [] {
      assert a + b == b;
    } else {
      assert (a + b)[1..] == a[1..] + b;
      MeaningConcat(a[1..], b);
    }
  }

  lemma MeaningOne(p: Piece, rest: seq<Piece>)
    requires PieceOk(p) && PiecesOk(rest)
    ensures PiecesOk([p] + rest) && Meaning([p] + rest) == EncodeOne(PieceScalar(p)) + Meaning(rest)
  {
    hide EncodeOne, PieceScalar, PieceOk;
    assert ([p] + rest)[1..] == rest;
  }

  lemma EncodeMore(run: Text, c: Scalar)
    ensures Encode(run + [c]) == Encode(run) + EncodeOne(c)
  {
    hide EncodeOne;
    EncodeConcat(run, [c]);
    assert Encode([c]) == EncodeOne(c) + [];
    assert EncodeOne(c) + [] == EncodeOne(c);
  }

  lemma EncodeSqueezed(run: Text)
    ensures SqueezedRun(run) == run || (NEWLINE in run && Encode(SqueezedRun(run)) == [])
    ensures |Encode(SqueezedRun(run))| + (if NEWLINE in run then 1 else 0) <= |Encode(run)|
  {
  }

  /** What dropping the blanks around raw newlines does to the meaning of a string:
      nothing when there is none, and otherwise it gets shorter. */
  lemma {:induction false} ShrunkMeans(run: Text, ps: seq<Piece>)
    requires AllWhites(run) && PiecesOk(ps)
    ensures PiecesOk(Shrunk(run, ps))
    ensures NEWLINE !in run && Raw(NEWLINE) !in ps ==> Meaning(Shrunk(run, ps)) == Encode(run) + Meaning(ps)
    ensures |Meaning(Shrunk(run, ps))| + (if NEWLINE in run || Raw(NEWLINE) in ps then 1 else 0)
         <= |Encode(run)| + |Meaning(ps)|
    decreases |ps|
  {
    hide EncodeOne, SqueezedRun, White, AllWhites, Encode, Raws, PieceScalar;
    EncodeSqueezed(run);
    SqueezedWhites(run);
    RawsOk(SqueezedRun(run));
    if ps == [] {
      assert Encode(run) + Meaning(ps) == Encode(run);
    } else {
      var p, rest := ps[0], ps[1..];
      assert ps == [p] + rest;
      assert PieceOk(p);
      MeaningOne(p, rest);
      if IsBlank(p) {
        MoreWhites(run, p.c);
        EncodeMore(run, p.c);
        RawScalar(p);
        ShrunkMeans(run + [p.c], rest);
        assert Encode(run) + EncodeOne(p.c) + Meaning(rest) == Encode(run) + (EncodeOne(p.c) + Meaning(rest));
      } else {
        NewlineIsBlank();
        NoWhites();
        ShrunkMeans([], rest);
        ShrunkStep(run, p, rest, Shrunk([], rest));
      }
    }
  }

  lemma RawScalar(p: Piece)
    requires PieceOk(p) && p.Raw?
    ensures PieceScalar(p) == p.c
  {
  }

  lemma ShrunkStep(run: Text, p: Piece, rest: seq<Piece>, shrunk: seq<Piece>)
    requires AllWhites(run) && PieceOk(p) && PiecesOk(rest) && PiecesOk(shrunk)
    ensures PiecesOk(Raws(SqueezedRun(run)) + ([p] + shrunk)) && PiecesOk([p] + rest)
    ensures Meaning(Raws(SqueezedRun(run)) + ([p] + shrunk))
         == Encode(SqueezedRun(run)) + (EncodeOne(PieceScalar(p)) + Meaning(shrunk))
    ensures Meaning([p] + rest) == EncodeOne(PieceScalar(p)) + Meaning(rest)
    ensures Encode([]) == [] && [] + Meaning(rest) == Meaning(rest)
  {
    hide EncodeOne, SqueezedRun, White, AllWhites, Encode, Raws, PieceOk, PieceScalar, Meaning, PiecesOk;
    SqueezedWhites(run);
    RawsOk(SqueezedRun(run));
    MeaningOne(p, rest);
    MeaningOne(p, shrunk);
    MeaningConcat(Raws(SqueezedRun(run)), [p] + shrunk);
    EncodeNone();
  }

  lemma SqueezedWhites(run: Text)
    requires AllWhites(run)
    ensures AllWhites(SqueezedRun(run))
  {
  }

  lemma MoreWhites(run: Text, c: Scalar)
    requires AllWhites(run) && White(c)
    ensures AllWhites(run + [c])
  {
  }

  lemma NoWhites()
    ensures AllWhites([])
  {
  }

  lemma NewlineIsBlank()
    ensures IsBlank(Raw(NEWLINE))
  {
  }

  lemma EncodeNone()
    ensures Encode([]) == []
  {
  }

  lemma ShrunkExactly(ps: seq<Piece>)
    requires PiecesOk(ps)
    ensures PiecesOk(Shrunk([], ps))
    ensures Meaning(Shrunk([], ps)) == Meaning(ps) <==> Raw(NEWLINE) !in ps
  {
    hide Shrunk, Meaning, PiecesOk;
    ShrunkMeans([], ps);
    EncodeNone();
    assert [] + Meaning(ps) == Meaning(ps);
  }

  /** Dropping those gaps and blanks keeps the value exactly when no string holds a raw
      newline. */
  lemma {:induction false} RelaidExactly(d: Doc)
    requires DocOk(d)
    ensures DocOk(Relaid(d)) && (Value(Relaid(d)) == Value(d) <==> Unbroken(d))
    decreases d
  {
    hide PiecesOk, Shrunk, Meaning;
    match d
    case DStr(pieces) => ShrunkExactly(pieces);
    case DArray(items) => RelaidItemsExactly(items);
    case DObject(members) => RelaidMembersExactly(members);
    case _ =>
  }

  lemma {:induction false} RelaidItemsExactly(items: Items)
    requires ItemsOk(items)
    ensures ItemsOk(RelaidItems(items))
    ensures ItemValues(RelaidItems(items)) == ItemValues(items) <==> UnbrokenItems(items)
    decreases items
  {
    hide DocOk, Relaid, Value, Unbroken;
    RelaidExactly(items.doc);
    var x, y := Value(items.doc), Value(Relaid(items.doc));
    if items.LastItem? {
      SameHeads(x, y, [], []);
      assert [x] + [] == [x] && [y] + [] == [y];
    } else {
      RelaidItemsExactly(items.rest);
      SameHeads(x, y, ItemValues(items.rest), ItemValues(RelaidItems(items.rest)));
    }
  }

  lemma SameHeads<T>(x: T, y: T, a: seq<T>, b: seq<T>)
    ensures [y] + b == [x] + a <==> x == y && a == b
  {
    if [y] + b == [x] + a {
      assert ([y] + b)[0] == ([x] + a)[0];
      assert ([y] + b)[1..] == b && ([x] + a)[1..] == a;
    }
  }

  lemma {:induction false} RelaidMembersExactly(members: Members)
    requires MembersOk(members)
    ensures MembersOk(RelaidMembers(members))
    ensures MemberValues(RelaidMembers(members)) == MemberValues(members) <==> UnbrokenMembers(members)
    decreases members
  {
    hide DocOk, Relaid, Value, Unbroken, PiecesOk, Shrunk, Meaning;
    RelaidExactly(members.doc);
    ShrunkExactly(members.key.pieces);
    var x := (Meaning(members.key.pieces), Value(members.doc));
    var y := (Meaning(Shrunk([], members.key.pieces)), Value(Relaid(members.doc)));
    if members.LastMember? {
      SameHeads(x, y, [], []);
      assert [x] + [] == [x] && [y] + [] == [y];
    } else {
      RelaidMembersExactly(members.rest);
      SameHeads(x, y, MemberValues(members.rest), MemberValues(RelaidMembers(members.rest)));
    }
  }

  // ----- Relaying the cells -----

  function SqueezedCells(cells: seq<Cell>): seq<Cell> {
    if cells == [] then []
    else
      var gap := if NEWLINE in cells[0].gap then [] else cells[0].gap;
      [Cell(gap, cells[0].token)] + SqueezedCells(cells[1..])
  }

  lemma {:induction false} SqueezedConcat(a: seq<Cell>, b: seq<Cell>)
    ensures SqueezedCells(a + b) == SqueezedCells(a) + SqueezedCells(b)
    decreases |a|
  {
    if a == [] {
      assert a + b == b;
    } else {
      assert (a + b)[1..] == a[1..] + b;
      SqueezedConcat(a[1..], b);
    }
  }

  lemma SqueezedOne(gap: Bytes, token: Text)
    ensures SqueezedCells([Cell(AsText(gap), token)]) == [Cell(AsText(Squeezed(gap)), token)]
  {
  }

  lemma TwoCells(gap: Bytes, token: Text, inner: Bytes, close: Text)
    ensures SqueezedCells([Cell(AsText(gap), token), Cell(AsText(inner), close)])
         == [Cell(AsText(Squeezed(gap)), token), Cell(AsText(Squeezed(inner)), close)]
  {
    hide SqueezedCells, Squeezed, AsText;
    var one, two := [Cell(AsText(gap), token)], [Cell(AsText(inner), close)];
    SqueezedOne(gap, token);
    SqueezedOne(inner, close);
    SqueezedConcat(one, two);
    assert one + two == [Cell(AsText(gap), token), Cell(AsText(inner), close)];
  }

  lemma {:induction false} RunCells(run: Text, blanks: Text, rest: seq<Piece>)
    requires AllWhites(blanks)
    ensures PieceCells(run, Raws(blanks) + rest) == PieceCells(run + blanks, rest)
    decreases |blanks|
  {
    hide White;
    if blanks == [] {
      assert Raws(blanks) + rest == rest && run + blanks == run;
    } else {
      var ps := Raws(blanks) + rest;
      assert ps[0] == Raw(blanks[0]);
      assert ps[1..] == Raws(blanks[1..]) + rest;
      RunCells(run + [blanks[0]], blanks[1..], rest);
      assert run + [blanks[0]] + blanks[1..] == run + blanks;
    }
  }

  lemma OneCell(run: Text, token: Text, rest: seq<Cell>)
    ensures SqueezedCells([Cell(run, token)] + rest) == [Cell(SqueezedRun(run), token)] + SqueezedCells(rest)
  {
    assert ([Cell(run, token)] + rest)[1..] == rest;
  }

  /** Squeezing the cells of a string is shrinking the string. */
  lemma {:induction false} ShrunkCells(run: Text, ps: seq<Piece>)
    requires AllWhites(run)
    ensures SqueezedCells(PieceCells(run, ps)) == PieceCells([], Shrunk(run, ps))
    decreases |ps|
  {
    hide SqueezedCells, SqueezedRun, White, AllWhites, PieceText, Raws;
    SqueezedWhites(run);
    var kept := SqueezedRun(run);
    assert [] + kept == kept;
    if ps == [] {
      OneCell(run, [QUOTE], []);
      NoCells();
      assert [Cell(run, [QUOTE])] + [] == [Cell(run, [QUOTE])];
      RunCells([], kept, []);
      assert Raws(kept) + [] == Raws(kept);
    } else if IsBlank(ps[0]) {
      MoreWhites(run, ps[0].c);
      ShrunkCells(run + [ps[0].c], ps[1..]);
    } else {
      NoWhites();
      ShrunkCells([], ps[1..]);
      OneCell(run, PieceText(ps[0]), PieceCells([], ps[1..]));
      var rest := [ps[0]] + Shrunk([], ps[1..]);
      RunCells([], kept, rest);
      assert rest[1..] == Shrunk([], ps[1..]);
    }
  }

  lemma NoCells()
    ensures SqueezedCells([]) == []
  {
  }

  lemma RelaidString(gap: Bytes, ps: seq<Piece>)
    ensures SqueezedCells(StringCells(gap, ps)) == StringCells(Squeezed(gap), Shrunk([], ps))
  {
    hide SqueezedCells, PieceCells, Shrunk, Squeezed, AsText;
    NoWhites();
    ShrunkCells([], ps);
    SqueezedOne(gap, [QUOTE]);
    SqueezedConcat([Cell(AsText(gap), [QUOTE])], PieceCells([], ps));
  }

  lemma {:induction false} RelaidCells(gap: Bytes, d: Doc)
    ensures Cells(Squeezed(gap), Relaid(d)) == SqueezedCells(Cells(gap, d))
    decreases d
  {
    hide Squeezed, SqueezedCells, StringCells, Shrunk, AsText;
    match d
    case DNull => SqueezedOne(gap, AsText(NULL));
    case DTrue => SqueezedOne(gap, AsText(TRUE));
    case DFalse => SqueezedOne(gap, AsText(FALSE));
    case DNumber(text) => SqueezedOne(gap, AsText(text));
    case DStr(pieces) => RelaidString(gap, pieces);
    case DEmptyArray(inner) =>
      TwoCells(gap, [0x5B], inner, [0x5D]);
    case DArray(items) =>
      SqueezedOne(gap, [0x5B]);
      RelaidItemCells(items);
      SqueezedConcat([Cell(AsText(gap), [0x5B])], ItemCells(items));
    case DEmptyObject(inner) =>
      TwoCells(gap, [0x7B], inner, [0x7D]);
    case DObject(members) =>
      SqueezedOne(gap, [0x7B]);
      RelaidMemberCells(members);
      SqueezedConcat([Cell(AsText(gap), [0x7B])], MemberCells(members));
  }

  lemma {:induction false} RelaidItemCells(items: Items)
    ensures ItemCells(RelaidItems(items)) == SqueezedCells(ItemCells(items))
    decreases items
  {
    hide Squeezed, SqueezedCells, AsText, Cells;
    RelaidCells(items.before, items.doc);
    var close := if items.LastItem? then [0x5D] else [0x2C];
    SqueezedOne(items.after, close);
    var doc, last := Cells(items.before, items.doc), [Cell(AsText(items.after), close)];
    SqueezedConcat(doc, last);
    if items.LastItem? {
      assert ItemCells(items) == doc + last;
    } else {
      RelaidItemCells(items.rest);
      SqueezedConcat(doc + last, ItemCells(items.rest));
    }
  }

  lemma {:induction false} RelaidMemberCells(members: Members)
    ensures MemberCells(RelaidMembers(members)) == SqueezedCells(MemberCells(members))
    decreases members
  {
    hide Squeezed, SqueezedCells, AsText, Cells, StringCells, Shrunk;
    var k := members.key;
    var name, colon := StringCells(k.before, k.pieces), [Cell(AsText(k.after), [0x3A])];
    RelaidString(k.before, k.pieces);
    SqueezedOne(k.after, [0x3A]);
    SqueezedConcat(name, colon);
    RelaidCells(members.before, members.doc);
    var close := if members.LastMember? then [0x7D] else [0x2C];
    SqueezedOne(members.after, close);
    var doc, last := Cells(members.before, members.doc), [Cell(AsText(members.after), close)];
    SqueezedConcat(name + colon, doc);
    SqueezedConcat(name + colon + doc, last);
    if members.LastMember? {
      assert MemberCells(members) == name + colon + doc + last;
    } else {
      RelaidMemberCells(members.rest);
      SqueezedConcat(name + colon + doc + last, MemberCells(members.rest));
    }
  }

  // ----- Tokens never break a line or start or end with white space -----

  predicate CellOk(cell: Cell) {
    (forall c :: c in cell.gap ==> White(c)) && Solid(cell.token) && NEWLINE !in cell.token
  }

  predicate CellsOk(cells: seq<Cell>) {
    forall i :: 0 <= i < |cells| ==> CellOk(cells[i])
  }

  lemma PieceSolid(p: Piece)
    requires PieceOk(p) && !IsBlank(p)
    ensures Solid(PieceText(p)) && NEWLINE !in PieceText(p)
  {
  }

  lemma {:induction false} PieceCellsAreOk(run: Text, ps: seq<Piece>)
    requires AllWhites(run) && PiecesOk(ps)
    ensures CellsOk(PieceCells(run, ps))
    decreases |ps|
  {
    hide PieceOk, PieceText, White;
    if ps == [] {
      QuoteSolid();
    } else if IsBlank(ps[0]) {
      PieceCellsAreOk(run + [ps[0].c], ps[1..]);
    } else {
      PieceSolid(ps[0]);
      PieceCellsAreOk([], ps[1..]);
    }
  }

  lemma QuoteSolid()
    ensures Solid([QUOTE]) && NEWLINE !in [QUOTE]
  {
  }

  lemma TokenOk(gap: Bytes, token: Text)
    requires IsGap(gap) && Solid(token) && NEWLINE !in token
    ensures CellOk(Cell(AsText(gap), token))
  {
  }

  lemma StringOk(gap: Bytes, ps: seq<Piece>)
    requires IsGap(gap) && PiecesOk(ps)
    ensures CellsOk(StringCells(gap, ps))
  {
    hide PieceCells, PiecesOk, CellOk, IsGap;
    NoWhites();
    PieceCellsAreOk([], ps);
    QuoteSolid();
    TokenOk(gap, [QUOTE]);
  }

  lemma {:induction false} CellsAreOk(gap: Bytes, d: Doc)
    requires IsGap(gap) && DocOk(d)
    ensures CellsOk(Cells(gap, d))
    decreases d
  {
    hide StringCells, AsText, IsGap, PiecesOk, ItemsOk, MembersOk, CellOk, ItemCells, MemberCells;
    match d
    case DNull => TokenOk(gap, NULL); assert AsText(NULL) == NULL by { SameText(NULL); }
    case DTrue => TokenOk(gap, TRUE); assert AsText(TRUE) == TRUE by { SameText(TRUE); }
    case DFalse => TokenOk(gap, FALSE); assert AsText(FALSE) == FALSE by { SameText(FALSE); }
    case DNumber(text) => TokenOk(gap, text); SameText(text);
    case DStr(pieces) => StringOk(gap, pieces);
    case DEmptyArray(inner) => TokenOk(gap, [0x5B]); TokenOk(inner, [0x5D]);
    case DArray(items) => TokenOk(gap, [0x5B]); ItemCellsAreOk(items);
    case DEmptyObject(inner) => TokenOk(gap, [0x7B]); TokenOk(inner, [0x7D]);
    case DObject(members) => TokenOk(gap, [0x7B]); MemberCellsAreOk(members);
  }

  lemma SameText(b: Bytes)
    ensures AsText(b) == b
  {
  }

  lemma {:induction false} ItemCellsAreOk(items: Items)
    requires ItemsOk(items)
    ensures CellsOk(ItemCells(items))
    decreases items
  {
    hide AsText, IsGap, DocOk, CellOk, Cells;
    CellsAreOk(items.before, items.doc);
    TokenOk(items.after, if items.LastItem? then [0x5D] else [0x2C]);
    if items.MoreItems? {
      ItemCellsAreOk(items.rest);
    }
  }

  lemma {:induction false} MemberCellsAreOk(members: Members)
    requires MembersOk(members)
    ensures CellsOk(MemberCells(members))
    decreases members
  {
    hide AsText, IsGap, DocOk, CellOk, Cells, StringCells, PiecesOk;
    StringOk(members.key.before, members.key.pieces);
    TokenOk(members.key.after, [0x3A]);
    CellsAreOk(members.before, members.doc);
    TokenOk(members.after, if members.LastMember? then [0x7D] else [0x2C]);
    if members.MoreMembers? {
      MemberCellsAreOk(members.rest);
    }
  }

  // ----- Minifying cells -----

  lemma Regrouped(a: Text, b: Text, c: Text)
    ensures a + b + c == a + (b + c)
  {
  }

  /** The end of the text, after its last token. */
  lemma MinifyLast(line: Text, last: Text)
    requires Solid(line) && NEWLINE !in line && forall c :: c in last ==> White(c)
    ensures Minify(line + last) == line
  {
    hide Minify, Trim, White;
    SolidTrims(line);
    if NEWLINE in last {
      assert line + last + [] == line + last;
      BrokenGap(line, last, []);
      OneLine([]);
      TrimEmpty();
    } else {
      OneLine(line + last);
      TrimDropsTail(line, last);
    }
  }

  /** The tokens of a text that starts on the line `line`. */
  lemma {:induction false} MinifyCells(line: Text, cells: seq<Cell>, last: Text)
    requires Solid(line) && NEWLINE !in line && CellsOk(cells)
    requires forall c :: c in last ==> White(c)
    ensures Minify(line + (Flat(cells) + last)) == line + Flat(SqueezedCells(cells))
    decreases |cells|
  {
    hide Minify, Trim, White, Flat, SqueezedCells, Solid;
    if cells == [] {
      FlatNone();
      assert [] + last == last && line + [] == line;
      MinifyLast(line, last);
    } else {
      var gap, token, rest := cells[0].gap, cells[0].token, cells[1..];
      assert CellOk(cells[0]);
      assert cells == [Cell(gap, token)] + rest;
      FlatOne(gap, token, rest);
      SqueezedCell(gap, token, rest);
      if NEWLINE in gap {
        MinifyCells(token, rest, last);
        MinifyBroken(line, gap, token, Flat(rest) + last);
        FlatOne([], token, SqueezedCells(rest));
        assert [] + token == token;
      } else {
        SolidJoin(line, gap, token);
        MinifyCells(line + gap + token, rest, last);
        FlatOne(gap, token, SqueezedCells(rest));
        Regrouped(line, gap + token, Flat(SqueezedCells(rest)));
        Regrouped(line, gap + token, Flat(rest) + last);
        Regrouped(line, gap, token);
      }
      Regrouped(gap + token, Flat(rest), last);
    }
  }

  lemma FlatNone()
    ensures Flat([]) == [] && Flat(SqueezedCells([])) == []
  {
  }

  lemma SqueezedCell(gap: Text, token: Text, rest: seq<Cell>)
    ensures SqueezedCells([Cell(gap, token)] + rest)
         == [Cell(if NEWLINE in gap then [] else gap, token)] + SqueezedCells(rest)
  {
    assert ([Cell(gap, token)] + rest)[1..] == rest;
  }

  lemma SolidJoin(line: Text, gap: Text, token: Text)
    requires Solid(line) && Solid(token)
    ensures Solid(line + gap + token)
  {
  }

  lemma MinifyBroken(line: Text, gap: Text, token: Text, rest: Text)
    requires Solid(line) && NEWLINE !in line && NEWLINE in gap && forall c :: c in gap ==> White(c)
    ensures Minify(line + (gap + token + rest)) == line + Minify(token + rest)
  {
    hide Minify, Trim, White;
    SolidTrims(line);
    BrokenGap(line, gap, token + rest);
    assert line + gap + (token + rest) == line + (gap + token + rest);
  }

  lemma FlatOne(gap: Text, token: Text, rest: seq<Cell>)
    ensures Flat([Cell(gap, token)] + rest) == gap + token + Flat(rest)
  {
    assert ([Cell(gap, token)] + rest)[1..] == rest;
  }

  lemma MinifyLayout(cells: seq<Cell>, last: Text)
    requires CellsOk(cells) && cells != []
    requires forall c :: c in last ==> White(c)
    ensures Minify(Flat(cells) + last) == cells[0].token + Flat(SqueezedCells(cells[1..]))
  {
    hide Minify, Trim, White, Flat, SqueezedCells;
    var gap, token, rest := cells[0].gap, cells[0].token, cells[1..];
    assert CellOk(cells[0]);
    assert cells == [Cell(gap, token)] + rest;
    FlatOne(gap, token, rest);
    Regrouped(gap, token, Flat(rest));
    Regrouped(gap, token + Flat(rest), last);
    Regrouped(token, Flat(rest), last);
    LeadingGap(gap, token + (Flat(rest) + last));
    MinifyCells(token, rest, last);
  }

  lemma FirstCell(gap: Bytes, d: Doc)
    ensures Cells(gap, d) != [] && Cells(gap, d)[0] == Cell(AsText(gap), Cells([], d)[0].token)
    ensures Cells(gap, d)[1..] == Cells([], d)[1..]
    ensures Cells([], d)[0].gap == []
  {
  }

  /** Minifying a document gives the document without the gaps that hold a newline,
      and without the white space around it. */
  lemma MinifyRelays(before: Bytes, d: Doc, after: Bytes)
    requires IsGap(before) && DocOk(d) && IsGap(after)
    ensures Minify(Flat(Cells(before, d)) + AsText(after)) == TextOf(Relaid(d))
  {
    hide Minify, DocOk, White, Cells, Flat;
    CellsAreOk(before, d);
    FirstCell(before, d);
    GapIsWhite(after);
    MinifyLayout(Cells(before, d), AsText(after));
    RelaidCells([], d);
    FlatSqueezed(Cells([], d), d);
  }

  lemma GapIsWhite(gap: Bytes)
    requires IsGap(gap)
    ensures forall c :: c in AsText(gap) ==> White(c)
  {
  }

  lemma FlatSqueezed(cells: seq<Cell>, d: Doc)
    requires cells == Cells([], d)
    ensures cells != [] && Flat(SqueezedCells(cells)) == cells[0].token + Flat(SqueezedCells(cells[1..]))
  {
    hide Flat, Cells, AsText;
    FirstCell([], d);
    FlatOne([], cells[0].token, SqueezedCells(cells[1..]));
    assert [] + cells[0].token == cells[0].token;
  }

  // ----- The characters of a document are its bytes -----

  predicate IsAscii(b: Bytes) {
    forall i :: 0 <= i < |b| ==> b[i] < 0x80
  }

  lemma {:induction false} EncodeAscii(b: Bytes)
    requires IsAscii(b)
    ensures Encode(AsText(b)) == b
    decreases |b|
  {
    if b != [] {
      EncodeAscii(b[1..]);
      assert AsText(b)[1..] == AsText(b[1..]);
    }
  }

  lemma EncodePiece(p: Piece)
    requires PieceOk(p)
    ensures Encode(PieceText(p)) == WritePiece(p)
  {
    if p.Raw? {
      assert Encode([p.c]) == EncodeOne(p.c) + [];
    } else {
      EncodeAscii(WritePiece(p));
    }
  }

  lemma {:induction false} EncodePieces(ps: seq<Piece>)
    requires PiecesOk(ps)
    ensures Encode(PieceTexts(ps)) == WritePieces(ps)
    decreases |ps|
  {
    if ps != [] {
      EncodePiece(ps[0]);
      EncodePieces(ps[1..]);
      EncodeConcat(PieceText(ps[0]), PieceTexts(ps[1..]));
    }
  }

  lemma EncodeString(ps: seq<Piece>)
    requires PiecesOk(ps)
    ensures Encode(StringText(ps)) == WriteString(ps)
  {
    EncodePieces(ps);
    EncodeAscii([QUOTE]);
    EncodeConcat([QUOTE], PieceTexts(ps));
    EncodeConcat([QUOTE] + PieceTexts(ps), [QUOTE]);
  }

  lemma {:induction false} FlatConcat(a: seq<Cell>, b: seq<Cell>)
    ensures Flat(a + b) == Flat(a) + Flat(b)
    decreases |a|
  {
    if a == [] {
      assert a + b == b;
    } else {
      assert (a + b)[1..] == a[1..] + b;
      FlatConcat(a[1..], b);
    }
  }

  /** The bytes of some cells. */
  function Bytesof(cells: seq<Cell>): Bytes {
    Encode(Flat(cells))
  }

  lemma BytesConcat(a: seq<Cell>, b: seq<Cell>)
    ensures Bytesof(a + b) == Bytesof(a) + Bytesof(b)
  {
    FlatConcat(a, b);
    EncodeConcat(Flat(a), Flat(b));
  }

  lemma BytesOne(gap: Bytes, token: Text, bytes: Bytes)
    requires IsGap(gap) && Encode(token) == bytes
    ensures Bytesof([Cell(AsText(gap), token)]) == gap + bytes
  {
    EncodeAscii(gap);
    EncodeConcat(AsText(gap), token);
    assert Flat([Cell(AsText(gap), token)]) == AsText(gap) + token + [];
    assert AsText(gap) + token + [] == AsText(gap) + token;
  }

  lemma BytesToken(gap: Bytes, token: Bytes)
    requires IsGap(gap) && IsAscii(token)
    ensures Bytesof([Cell(AsText(gap), AsText(token))]) == gap + token
  {
    EncodeAscii(token);
    BytesOne(gap, AsText(token), token);
  }

  lemma PieceTextsStep(ps: seq<Piece>)
    requires ps != []
    ensures PieceTexts(ps) == PieceText(ps[0]) + PieceTexts(ps[1..])
    ensures IsBlank(ps[0]) ==> PieceText(ps[0]) == [ps[0].c]
  {
    hide White;
  }

  lemma FlatLast(run: Text, token: Text)
    ensures Flat([Cell(run, token)]) == run + token
  {
    FlatOne(run, token, []);
    assert [Cell(run, token)] + [] == [Cell(run, token)];
  }

  lemma {:induction false} FlatPieces(run: Text, ps: seq<Piece>)
    ensures Flat(PieceCells(run, ps)) == run + (PieceTexts(ps) + [QUOTE])
    decreases |ps|
  {
    hide White, Flat, PieceTexts, PieceText, IsBlank;
    if ps == [] {
      FlatLast(run, [QUOTE]);
      NoTexts();
    } else {
      var text, rest := PieceText(ps[0]), PieceTexts(ps[1..]) + [QUOTE];
      PieceTextsStep(ps);
      Regrouped(run, text, rest);
      Regrouped(text, PieceTexts(ps[1..]), [QUOTE]);
      if IsBlank(ps[0]) {
        BlankIsRaw(ps[0]);
        FlatPieces(run + [ps[0].c], ps[1..]);
      } else {
        FlatPieces([], ps[1..]);
        FlatOne(run, text, PieceCells([], ps[1..]));
        assert [] + rest == rest;
      }
    }
  }

  lemma BlankIsRaw(p: Piece)
    requires IsBlank(p)
    ensures p.Raw? && PieceText(p) == [p.c]
  {
  }

  lemma NoTexts()
    ensures PieceTexts([]) == [] && [] + [QUOTE] == [QUOTE]
  {
  }

  lemma FlatString(gap: Bytes, ps: seq<Piece>)
    ensures Flat(StringCells(gap, ps)) == AsText(gap) + StringText(ps)
  {
    hide PieceCells, PieceTexts, Flat, AsText;
    FlatPieces([], ps);
    FlatOne(AsText(gap), [QUOTE], PieceCells([], ps));
  }

  lemma BytesString(gap: Bytes, ps: seq<Piece>)
    requires IsGap(gap) && PiecesOk(ps)
    ensures Bytesof(StringCells(gap, ps)) == gap + WriteString(ps)
  {
    hide PiecesOk, PieceCells, PieceTexts, Encode, WriteString;
    FlatString(gap, ps);
    EncodeAscii(gap);
    EncodeString(ps);
    EncodeConcat(AsText(gap), StringText(ps));
  }

  lemma {:induction false} CellsWrite(gap: Bytes, d: Doc)
    requires IsGap(gap) && DocOk(d)
    ensures Bytesof(Cells(gap, d)) == gap + Write(d)
    decreases d
  {
    hide Bytesof, IsGap, StringCells, PiecesOk, ItemsOk, MembersOk, ItemCells, MemberCells;
    hide WriteString, WriteItems, WriteMembers;
    match d
    case DNull => BytesToken(gap, NULL);
    case DTrue => BytesToken(gap, TRUE);
    case DFalse => BytesToken(gap, FALSE);
    case DNumber(text) => BytesToken(gap, text);
    case DStr(pieces) => BytesString(gap, pieces);
    case DEmptyArray(inner) => BytesPair(gap, [0x5B], inner, [0x5D]);
    case DEmptyObject(inner) => BytesPair(gap, [0x7B], inner, [0x7D]);
    case DArray(items) =>
      BytesToken(gap, [0x5B]);
      ItemCellsWrite(items);
      BytesConcat([Cell(AsText(gap), AsText([0x5B]))], ItemCells(items));
    case DObject(members) =>
      BytesToken(gap, [0x7B]);
      MemberCellsWrite(members);
      BytesConcat([Cell(AsText(gap), AsText([0x7B]))], MemberCells(members));
  }

  lemma BytesPair(gap: Bytes, token: Bytes, inner: Bytes, close: Bytes)
    requires IsGap(gap) && IsGap(inner) && IsAscii(token) && IsAscii(close)
    ensures Bytesof([Cell(AsText(gap), AsText(token)), Cell(AsText(inner), AsText(close))])
         == gap + (token + inner + close)
  {
    hide Bytesof, AsText, IsAscii, IsGap;
    var one, two := [Cell(AsText(gap), AsText(token))], [Cell(AsText(inner), AsText(close))];
    BytesToken(gap, token);
    BytesToken(inner, close);
    BytesConcat(one, two);
    assert one + two == [Cell(AsText(gap), AsText(token)), Cell(AsText(inner), AsText(close))];
  }

  lemma {:induction false} ItemCellsWrite(items: Items)
    requires ItemsOk(items)
    ensures Bytesof(ItemCells(items)) == WriteItems(items)
    decreases items
  {
    hide Bytesof, IsGap, DocOk, Cells, Write;
    var close: Bytes := if items.LastItem? then [0x5D] else [0x2C];
    var doc, last := Cells(items.before, items.doc), [Cell(AsText(items.after), AsText(close))];
    CellsWrite(items.before, items.doc);
    BytesToken(items.after, close);
    BytesConcat(doc, last);
    if items.LastItem? {
      assert ItemCells(items) == doc + last;
    } else {
      ItemCellsWrite(items.rest);
      BytesConcat(doc + last, ItemCells(items.rest));
    }
  }

  lemma MemberBytes(before: Bytes, key: Bytes, after: Bytes, gap: Bytes, doc: Bytes, last: Bytes, tail: Bytes)
    ensures (before + key) + (after + [0x3A]) + (gap + doc) + (last + tail)
         == before + key + after + ([0x3A] + (gap + doc + last + tail))
  {
  }

  lemma MembersWritten(members: Members)
    ensures
      var k := members.key;
      var head := (k.before + WriteString(k.pieces)) + (k.after + [0x3A]) + (members.before + Write(members.doc));
      WriteMembers(members) ==
        if members.LastMember? then head + (members.after + [0x7D])
        else head + (members.after + [0x2C]) + WriteMembers(members.rest)
  {
    hide Write, WriteString;
    var k := members.key;
    MemberBytes(k.before, WriteString(k.pieces), k.after, members.before, Write(members.doc), members.after,
                MembersTail(members));
    if members.MoreMembers? {
      var rest := WriteMembers(members.rest);
      assert members.after + ([0x2C] + rest) == members.after + [0x2C] + rest;
    }
  }

  lemma {:induction false} MemberCellsWrite(members: Members)
    requires MembersOk(members)
    ensures Bytesof(MemberCells(members)) == WriteMembers(members)
    decreases members
  {
    hide Bytesof, IsGap, DocOk, Cells, Write, StringCells, WriteString, PiecesOk, WriteMembers;
    MembersWritten(members);
    var k := members.key;
    var name, colon := StringCells(k.before, k.pieces), [Cell(AsText(k.after), AsText([0x3A]))];
    BytesString(k.before, k.pieces);
    BytesToken(k.after, [0x3A]);
    BytesConcat(name, colon);
    var close: Bytes := if members.LastMember? then [0x7D] else [0x2C];
    var doc, last := Cells(members.before, members.doc), [Cell(AsText(members.after), AsText(close))];
    CellsWrite(members.before, members.doc);
    BytesToken(members.after, close);
    BytesConcat(name + colon, doc);
    BytesConcat(name + colon + doc, last);
    if members.LastMember? {
      assert MemberCells(members) == name + colon + doc + last;
    } else {
      MemberCellsWrite(members.rest);
      BytesConcat(name + colon + doc + last, MemberCells(members.rest));
    }
  }

  // ----- What the minifier is for -----

  /** A document as a file: white space, the document, white space. */
  function File(before: Bytes, d: Doc, after: Bytes): Text {
    Flat(Cells(before, d)) + AsText(after)
  }

  lemma FileBytes(before: Bytes, d: Doc, after: Bytes)
    requires IsGap(before) && DocOk(d) && IsGap(after)
    ensures Encode(File(before, d, after)) == before + Write(d) + after
  {
    hide DocOk, Cells, Write, Flat;
    CellsWrite(before, d);
    EncodeAscii(after);
    EncodeConcat(Flat(Cells(before, d)), AsText(after));
  }

  /** Minifying any text the reader takes gives the document without the gaps and the
      blanks around newlines, and the reader takes that too. The value stays the same
      exactly when no string holds a raw newline. */
  lemma MinifyKeepsMeaning(before: Bytes, d: Doc, after: Bytes)
    requires IsGap(before) && DocOk(d) && IsGap(after)
    ensures DocOk(Relaid(d))
    ensures
      var file := File(before, d, after);
      var small := Encode(Minify(file));
      && Encode(file) == before + Write(d) + after
      && ParseDocument(Encode(file)) == Parsed(|Encode(file)|, Ok(Value(d)))
      && small == Write(Relaid(d))
      && ParseDocument(small) == Parsed(|small|, Ok(Value(Relaid(d))))
      && (ParseDocument(small).result == Ok(Value(d)) <==> Unbroken(d))
  {
    hide DocOk, Write, Value, File, ParseDocument, Minify, Encode, Relaid, Unbroken;
    FileBytes(before, d, after);
    RoundTrip(before, d, after);
    FileMinified(before, d, after);
    RelaidExactly(d);
    FileBytes([], Relaid(d), []);
    FileAlone(Relaid(d));
    RoundTrip([], Relaid(d), []);
    assert [] + Write(Relaid(d)) + [] == Write(Relaid(d));
  }

  lemma FileMinified(before: Bytes, d: Doc, after: Bytes)
    requires IsGap(before) && DocOk(d) && IsGap(after)
    ensures Minify(File(before, d, after)) == TextOf(Relaid(d))
  {
    hide DocOk, Minify, Cells, Flat;
    MinifyRelays(before, d, after);
  }

  lemma FileAlone(d: Doc)
    ensures File([], d, []) == TextOf(d)
  {
    hide Cells, Flat;
  }

  lemma BlankString()
    ensures Shrunk([], [Raw(0x20), Raw(NEWLINE), Raw(0x20)]) == []
  {
    var three, two, one := [Raw(0x20), Raw(NEWLINE), Raw(0x20)], [Raw(NEWLINE), Raw(0x20)], [Raw(0x20)];
    assert IsBlank(Raw(NEWLINE)) && IsBlank(Raw(0x20));
    hide IsBlank, SqueezedRun;
    assert three[1..] == two && two[1..] == one && one[1..] == [];
    assert [] + [0x20] == [0x20] && [0x20] + [NEWLINE] == [0x20, NEWLINE];
    assert [0x20, NEWLINE] + [0x20] == [0x20, NEWLINE, 0x20];
    assert Shrunk([], three) == Shrunk([0x20], two);
    assert Shrunk([0x20], two) == Shrunk([0x20, NEWLINE], one);
    EncodeSqueezed([0x20, NEWLINE, 0x20]);
  }

  /** A string with a raw newline between two blanks, minified to an empty one. */
  lemma LooseTextChangesMeaning()
    ensures
      var loose := DStr([Raw(0x20), Raw(NEWLINE), Raw(0x20)]);
      && DocOk(loose) && !Unbroken(loose)
      && ParseDocument(Encode(Minify(File([], loose, [])))).result == Ok(Str([]))
  {
    hide ParseDocument, Encode, Minify, File, White, Write, EncodeOne, Cells, Flat, Shrunk;
    BlankString();
    MinifyKeepsMeaning([], DStr([Raw(0x20), Raw(NEWLINE), Raw(0x20)]), []);
  }
}
