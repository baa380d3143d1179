/** JSON texts with every freedom section 2 to 7 of RFC 8259 leaves the writer:
    white space around every token, and every way to write a character. */
module JsonText {
  import opened Utf8
  import opened Json

  /** One character of a string, as written. */
  datatype Piece =
    | Raw(c: Scalar)
    | Short(letter: Byte)
    | Unit(hex: Bytes)
    | Surrogates(high: Bytes, low: Bytes)

  datatype Doc =
    | DNull
    | DTrue
    | DFalse
    | DNumber(text: Bytes)
    | DStr(pieces: seq<Piece>)
    | DEmptyArray(gap: Bytes)
    | DArray(items: Items)
    | DEmptyObject(gap: Bytes)
    | DObject(members: Members)

  /** At least one value, each with the white space around it. */
  datatype Items =
    | LastItem(before: Bytes, doc: Doc, after: Bytes)
    | MoreItems(before: Bytes, doc: Doc, after: Bytes, rest: Items)

  datatype Members =
    | LastMember(key: Key, before: Bytes, doc: Doc, after: Bytes)
    | MoreMembers(key: Key, before: Bytes, doc: Doc, after: Bytes, rest: Members)

  datatype Key = Key(before: Bytes, pieces: seq<Piece>, after: Bytes)

  // ----- Well-formed texts -----

  predicate IsGap(w: Bytes) {
    forall i :: 0 <= i < |w| ==> Space(w[i])
  }

  predicate IsHex4(h: Bytes) {
    |h| == 4 && forall i :: 0 <= i < 4 ==> HexDigit(h[i])
  }

  function Hex4Value(h: Bytes): (v: nat)
    requires IsHex4(h)
    ensures v < 0x10000
  {
    HexValue(h[0]) * 4096 + HexValue(h[1]) * 256 + HexValue(h[2]) * 16 + HexValue(h[3])
  }

  /** The reader takes raw control characters, which the standard forbids. */
  predicate PieceOk(p: Piece) {
    match p
    case Raw(c) => c != QUOTE && c != BACKSLASH
    case Short(letter) => ShortEscape(letter).Some?
    case Unit(hex) => IsHex4(hex) && !IsHigh(Hex4Value(hex)) && !IsLow(Hex4Value(hex))
    case Surrogates(high, low) =>
      IsHex4(high) && IsHex4(low) && IsHigh(Hex4Value(high)) && IsLow(Hex4Value(low))
  }

  predicate PiecesOk(ps: seq<Piece>) {
    forall i :: 0 <= i < |ps| ==> PieceOk(ps[i])
  }

  /** At least one digit, and nothing else. */
  predicate DigitsOnly(t: Bytes) {
    t != [] && forall i :: 0 <= i < |t| ==> Digit(t[i])
  }

  /** `[ minus ] int [ frac ] [ exp ]` of section 6. */
  ghost predicate RfcNumber(t: Bytes) {
    exists minus: Bytes, whole: Bytes, frac: Bytes, exp: Bytes ::
      && t == minus + whole + frac + exp
      && (minus == [] || minus == [0x2D])
      && DigitsOnly(whole) && (whole[0] == 0x30 ==> |whole| == 1)
      && (frac == [] || (frac[0] == 0x2E && DigitsOnly(frac[1..])))
      && (exp == [] || IsExponent(exp))
  }

  predicate IsExponent(e: Bytes) {
    && |e| >= 2
    && (e[0] == 0x65 || e[0] == 0x45)
    && (DigitsOnly(e[1..]) || ((e[1] == 0x2B || e[1] == 0x2D) && DigitsOnly(e[2..])))
  }

  /** What the reader takes for a number: a sign, then number bytes with a digit. */
  predicate LooseNumber(t: Bytes) {
    && t != []
    && (t[0] == 0x2D || Digit(t[0]))
    && (forall i :: 0 <= i < |t| ==> NumberByte(t[i]))
    && (exists i :: 0 <= i < |t| && Digit(t[i]))
  }

  lemma FractionIsLoose(frac: Bytes)
    requires frac == [] || (frac[0] == 0x2E && DigitsOnly(frac[1..]))
    ensures forall b :: b in frac ==> NumberByte(b)
  {
    forall b | b in frac
      ensures NumberByte(b)
    {
      var i :| 0 <= i < |frac| && frac[i] == b;
      assert i > 0 ==> b == frac[1..][i - 1];
    }
  }

  lemma ExponentIsLoose(exp: Bytes)
    requires exp == [] || IsExponent(exp)
    ensures forall b :: b in exp ==> NumberByte(b)
  {
    forall b | b in exp
      ensures NumberByte(b)
    {
      var i :| 0 <= i < |exp| && exp[i] == b;
      assert i > 0 ==> b == exp[1..][i - 1];
      assert i > 1 ==> b == exp[2..][i - 2];
    }
  }

  /** Every number the standard allows is one the reader takes. */
  lemma RfcNumberIsLoose(t: Bytes)
    requires RfcNumber(t)
    ensures LooseNumber(t)
  {
    var minus: Bytes, whole: Bytes, frac: Bytes, exp: Bytes :|
      && t == minus + whole + frac + exp
      && (minus == [] || minus == [0x2D])
      && DigitsOnly(whole) && (whole[0] == 0x30 ==> |whole| == 1)
      && (frac == [] || (frac[0] == 0x2E && DigitsOnly(frac[1..])))
      && (exp == [] || IsExponent(exp));
    FractionIsLoose(frac);
    ExponentIsLoose(exp);
    PartsAreLoose(minus, whole, frac, exp);
  }

  lemma PartsAreLoose(minus: Bytes, whole: Bytes, frac: Bytes, exp: Bytes)
    requires (minus == [] || minus == [0x2D]) && DigitsOnly(whole)
    requires forall b :: b in frac || b in exp ==> NumberByte(b)
    ensures LooseNumber(minus + whole + frac + exp)
  {
    var t := minus + whole + frac + exp;
    forall i | 0 <= i < |t|
      ensures NumberByte(t[i])
    {
      assert t[i] in minus || t[i] in whole || t[i] in frac || t[i] in exp;
    }
    assert t[|minus|] == whole[0];
  }

  predicate DocOk(d: Doc) {
    match d
    case DNumber(text) => LooseNumber(text)
    case DStr(pieces) => PiecesOk(pieces)
    case DEmptyArray(gap) => IsGap(gap)
    case DArray(items) => ItemsOk(items)
    case DEmptyObject(gap) => IsGap(gap)
    case DObject(members) => MembersOk(members)
    case _ => true
  }

  predicate ItemsOk(items: Items) {
    && IsGap(items.before) && DocOk(items.doc) && IsGap(items.after)
    && (items.MoreItems? ==> ItemsOk(items.rest))
  }

  predicate KeyOk(k: Key) {
    IsGap(k.before) && PiecesOk(k.pieces) && IsGap(k.after)
  }

  predicate MembersOk(members: Members) {
    && KeyOk(members.key)
    && IsGap(members.before) && DocOk(members.doc) && IsGap(members.after)
    && (members.MoreMembers? ==> MembersOk(members.rest))
  }

  // ----- Writing -----

  function WritePiece(p: Piece): (r: Bytes)
    ensures r != []
  {
    match p
    case Raw(c) => EncodeOne(c)
    case Short(letter) => [BACKSLASH, letter]
    case Unit(hex) => [BACKSLASH, 0x75] + hex
    case Surrogates(high, low) => [BACKSLASH, 0x75] + high + [BACKSLASH, 0x75] + low
  }

  function WritePieces(ps: seq<Piece>): Bytes {
    if ps == [] then [] else WritePiece(ps[0]) + WritePieces(ps[1..])
  }

  function WriteString(ps: seq<Piece>): Bytes {
    [QUOTE] + WritePieces(ps) + [QUOTE]
  }

  function Write(d: Doc): Bytes {
    match d
    case DNull => NULL
    case DTrue => TRUE
    case DFalse => FALSE
    case DNumber(text) => text
    case DStr(pieces) => WriteString(pieces)
    case DEmptyArray(gap) => [0x5B] + gap + [0x5D]
    case DArray(items) => [0x5B] + WriteItems(items)
    case DEmptyObject(gap) => [0x7B] + gap + [0x7D]
    case DObject(members) => [0x7B] + WriteMembers(members)
  }

  function WriteItems(items: Items): Bytes {
    items.before + Write(items.doc) + items.after + ItemsTail(items)
  }

  /** What follows an item: the closing bracket, or a comma and more items. */
  function ItemsTail(items: Items): (r: Bytes)
    ensures r != [] && r[0] == if items.LastItem? then 0x5D else 0x2C
    decreases items, 0
  {
    if items.LastItem? then [0x5D] else [0x2C] + WriteItems(items.rest)
  }

  function WriteMembers(members: Members): Bytes {
    members.key.before + WriteString(members.key.pieces) + members.key.after + ([0x3A] + AfterColon(members))
  }

  /** The rest of an object after a key and its colon. */
  function AfterColon(members: Members): Bytes
    decreases members, 1
  {
    members.before + Write(members.doc) + members.after + MembersTail(members)
  }

  /** What follows a member: the closing brace, or a comma and more members. */
  function MembersTail(members: Members): (r: Bytes)
    ensures r != [] && r[0] == if members.LastMember? then 0x7D else 0x2C
    decreases members, 0
  {
    if members.LastMember? then [0x7D] else [0x2C] + WriteMembers(members.rest)
  }

  // ----- Meaning -----

  function PieceScalar(p: Piece): Scalar
    requires PieceOk(p)
  {
    match p
    case Raw(c) => c
    case Short(letter) => ShortEscape(letter).value
    case Unit(hex) => Hex4Value(hex)
    case Surrogates(high, low) => PairScalar(Hex4Value(high), Hex4Value(low))
  }

  /** The text a string stands for, in UTF-8. */
  function Meaning(ps: seq<Piece>): Bytes
    requires PiecesOk(ps)
  {
    if ps == [] then [] else EncodeOne(PieceScalar(ps[0])) + Meaning(ps[1..])
  }

  function Value(d: Doc): Json
    requires DocOk(d)
  {
    match d
    case DNull => Null
    case DTrue => Bool(true)
    case DFalse => Bool(false)
    case DNumber(text) => Number(text)
    case DStr(pieces) => Str(Meaning(pieces))
    case DEmptyArray(_) => Array([])
    case DArray(items) => Array(ItemValues(items))
    case DEmptyObject(_) => Object([])
    case DObject(members) => Object(MemberValues(members))
  }

  function ItemValues(items: Items): seq<Json>
    requires ItemsOk(items)
  {
    [Value(items.doc)] + if items.LastItem? then [] else ItemValues(items.rest)
  }

  function MemberValues(members: Members): seq<(Bytes, Json)>
    requires MembersOk(members)
  {
    [(Meaning(members.key.pieces), Value(members.doc))]
    + if members.LastMember? then [] else MemberValues(members.rest)
  }
}
