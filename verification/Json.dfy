/** The JSON reader (`JsonParser` in `extension_watch.rs`) as a function of the
    source and a position. `JsonParser.Parser` is the reader itself. */
module Json {
  import opened Outcome
  import opened Utf8

  datatype Json =
    | Null
    | Bool(value: bool)
    | Number(text: Bytes)
    | Str(text: Bytes)
    | Array(items: seq<Json>)
    | Object(fields: seq<(Bytes, Json)>)

  datatype Problem =
    | UnexpectedCharacter
    | UnexpectedEnd
    | InvalidLiteral
    | ExpectedArraySeparator
    | UnterminatedArray
    | ExpectedColon
    | ExpectedObjectSeparator
    | UnterminatedObject
    | ExpectedString
    | UnterminatedString
    | UnterminatedEscape
    | InvalidEscape
    | NotUtf8
    | InvalidSurrogatePair
    | InvalidCodePoint
    | TruncatedEscape
    | InvalidHexDigit
    | InvalidNumber
    | TrailingData

  /** Where the reader stands after a step, and what the step found. */
  datatype Parsed<+T> = Parsed(pos: nat, result: Result<T, Problem>)

  const QUOTE: Byte := 0x22
  const BACKSLASH: Byte := 0x5C
  const NEWLINE: Byte := 0x0A

  predicate Space(b: Byte) {
    b == 0x20 || b == 0x09 || b == 0x0A || b == 0x0D
  }

  predicate Digit(b: Byte) {
    0x30 <= b <= 0x39
  }

  /** Bytes the reader takes as part of a number. */
  predicate NumberByte(b: Byte) {
    Digit(b) || b == 0x2E || b == 0x65 || b == 0x45 || b == 0x2B || b == 0x2D
  }

  predicate Peeks(src: Bytes, pos: nat, b: Byte) {
    pos < |src| && src[pos] == b
  }

  function Bump(src: Bytes, pos: nat): nat {
    if pos < |src| then pos + 1 else pos
  }

  function SkipSpace(src: Bytes, pos: nat): (next: nat)
    requires pos <= |src|
    ensures pos <= next <= |src|
    decreases |src| - pos
  {
    if pos < |src| && Space(src[pos]) then SkipSpace(src, pos + 1) else pos
  }

  function ParseLiteral(src: Bytes, pos: nat, literal: Bytes, value: Json): (r: Parsed<Json>)
    requires pos <= |src| && literal != []
    ensures pos <= r.pos <= |src| && (r.result.Ok? ==> pos < r.pos)
  {
    var end := pos + |literal|;
    if end <= |src| && src[pos..end] == literal then Parsed(end, Ok(value))
    else Parsed(pos, Err(InvalidLiteral))
  }

  // ----- Numbers -----

  /** The end of the run of number bytes at `pos`, and how many are digits. */
  function NumberRun(src: Bytes, pos: nat): (r: (nat, nat))
    requires pos <= |src|
    ensures pos <= r.0 <= |src| && r.1 <= r.0 - pos
    decreases |src| - pos
  {
    if pos < |src| && NumberByte(src[pos]) then
      var rest := NumberRun(src, pos + 1);
      (rest.0, rest.1 + if Digit(src[pos]) then 1 else 0)
    else (pos, 0)
  }

  function ParseNumber(src: Bytes, pos: nat): (r: Parsed<Json>)
    requires pos <= |src|
    ensures pos <= r.pos <= |src| && (r.result.Ok? ==> pos < r.pos)
  {
    var start := if Peeks(src, pos, 0x2D) then pos + 1 else pos;
    var (end, digits) := NumberRun(src, start);
    if digits == 0 then Parsed(end, Err(InvalidNumber)) else Parsed(end, Ok(Number(src[pos..end])))
  }

  // ----- Strings -----

  predicate HexDigit(b: Byte) {
    Digit(b) || 0x61 <= b <= 0x66 || 0x41 <= b <= 0x46
  }

  function HexValue(b: Byte): (v: nat)
    requires HexDigit(b)
    ensures v < 16
  {
    if Digit(b) then b - 0x30 else if b >= 0x61 then b - 0x61 + 10 else b - 0x41 + 10
  }

  /** One more than the largest number of `k` hexadecimal digits, up to four. */
  function HexLimit(k: nat): nat {
    if k == 0 then 1 else if k == 1 then 16 else if k == 2 then 256 else if k == 3 then 4096 else 65536
  }

  /** `n` more hexadecimal digits after those already read as `value`. Four digits
      never leave 16 bits. */
  function ParseHex(src: Bytes, pos: nat, n: nat, value: nat): (r: Parsed<nat>)
    requires pos <= |src|
    ensures pos <= r.pos <= |src|
    ensures r.result.Ok? && n <= 4 && value < HexLimit(4 - n) ==> r.result.value < 0x10000
    decreases n
  {
    if n == 0 then Parsed(pos, Ok(value))
    else if pos >= |src| then Parsed(pos, Err(TruncatedEscape))
    else if !HexDigit(src[pos]) then Parsed(pos + 1, Err(InvalidHexDigit))
    else ParseHex(src, pos + 1, n - 1, value * 16 + HexValue(src[pos]))
  }

  predicate IsHigh(u: nat) {
    0xD800 <= u <= 0xDBFF
  }

  predicate IsLow(u: nat) {
    0xDC00 <= u <= 0xDFFF
  }

  /** Section 2.1 of RFC 2781. */
  function PairScalar(high: nat, low: nat): Scalar
    requires IsHigh(high) && IsLow(low)
  {
    0x10000 + (high - 0xD800) * 1024 + (low - 0xDC00)
  }

  /** `parse_unicode_escape`, after the `u`. */
  function ParseUnicode(src: Bytes, pos: nat): (r: Parsed<Scalar>)
    requires pos <= |src|
    ensures pos <= r.pos <= |src|
  {
    var high := ParseHex(src, pos, 4, 0);
    if high.result.Err? then Parsed(high.pos, Err(high.result.error))
    else
      var u := high.result.value;
      if IsHigh(u) then
        if !Peeks(src, high.pos, BACKSLASH) then Parsed(Bump(src, high.pos), Err(InvalidSurrogatePair))
        else if !Peeks(src, high.pos + 1, 0x75) then
          Parsed(Bump(src, high.pos + 1), Err(InvalidSurrogatePair))
        else
          var low := ParseHex(src, high.pos + 2, 4, 0);
          if low.result.Err? then Parsed(low.pos, Err(low.result.error))
          else if !IsLow(low.result.value) then Parsed(low.pos, Err(InvalidSurrogatePair))
          else Parsed(low.pos, Ok(PairScalar(u, low.result.value)))
      else if IsLow(u) then Parsed(high.pos, Err(InvalidCodePoint))
      else Parsed(high.pos, Ok(u))
  }

  /** What a one-letter escape stands for. */
  function ShortEscape(e: Byte): Option<Byte> {
    if e == QUOTE then Some(QUOTE)
    else if e == BACKSLASH then Some(BACKSLASH)
    else if e == 0x2F then Some(0x2F)
    else if e == 0x62 then Some(0x08)
    else if e == 0x66 then Some(0x0C)
    else if e == 0x6E then Some(0x0A)
    else if e == 0x72 then Some(0x0D)
    else if e == 0x74 then Some(0x09)
    else None
  }

  /** The rest of a string, after the bytes `out`. */
  function ParseChars(src: Bytes, pos: nat, out: Bytes): (r: Parsed<Bytes>)
    requires pos <= |src|
    ensures pos <= r.pos <= |src|
    decreases |src| - pos
  {
    if pos >= |src| then Parsed(pos, Err(UnterminatedString))
    else if src[pos] == QUOTE then
      Parsed(pos + 1, if Valid(out) then Ok(out) else Err(NotUtf8))
    else if src[pos] == BACKSLASH then
      if pos + 1 >= |src| then Parsed(pos + 1, Err(UnterminatedEscape))
      else
        var e := src[pos + 1];
        if ShortEscape(e).Some? then ParseChars(src, pos + 2, out + [ShortEscape(e).value])
        else if e == 0x75 then
          var c := ParseUnicode(src, pos + 2);
          if c.result.Err? then Parsed(c.pos, Err(c.result.error))
          else ParseChars(src, c.pos, out + EncodeOne(c.result.value))
        else Parsed(pos + 2, Err(InvalidEscape))
    else ParseChars(src, pos + 1, out + [src[pos]])
  }

  function ParseString(src: Bytes, pos: nat): (r: Parsed<Bytes>)
    requires pos <= |src|
    ensures pos <= r.pos <= |src| && (r.result.Ok? ==> pos < r.pos)
  {
    if !Peeks(src, pos, QUOTE) then Parsed(pos, Err(ExpectedString)) else ParseChars(src, pos + 1, [])
  }

  // ----- Values -----

  const TRUE: Bytes := [0x74, 0x72, 0x75, 0x65]
  const FALSE: Bytes := [0x66, 0x61, 0x6C, 0x73, 0x65]
  const NULL: Bytes := [0x6E, 0x75, 0x6C, 0x6C]

  function ParseValue(src: Bytes, pos: nat): (r: Parsed<Json>)
    requires pos <= |src|
    ensures pos <= r.pos <= |src| && (r.result.Ok? ==> pos < r.pos)
    decreases |src| - pos, 1
  {
    var at := SkipSpace(src, pos);
    if at >= |src| then Parsed(at, Err(UnexpectedEnd))
    else if src[at] == 0x7B then
      var first := SkipSpace(src, at + 1);
      if Peeks(src, first, 0x7D) then Parsed(first + 1, Ok(Object([]))) else ParseFields(src, first, [])
    else if src[at] == 0x5B then
      var first := SkipSpace(src, at + 1);
      if Peeks(src, first, 0x5D) then Parsed(first + 1, Ok(Array([]))) else ParseItems(src, first, [])
    else if src[at] == QUOTE then
      var s := ParseString(src, at);
      Parsed(s.pos, if s.result.Ok? then Ok(Str(s.result.value)) else Err(s.result.error))
    else if src[at] == 0x74 then ParseLiteral(src, at, TRUE, Bool(true))
    else if src[at] == 0x66 then ParseLiteral(src, at, FALSE, Bool(false))
    else if src[at] == 0x6E then ParseLiteral(src, at, NULL, Null)
    else if src[at] == 0x2D || Digit(src[at]) then ParseNumber(src, at)
    else Parsed(at, Err(UnexpectedCharacter))
  }

  /** The items of an array still to come, up to its closing bracket. */
  function ParseItems(src: Bytes, pos: nat, items: seq<Json>): (r: Parsed<Json>)
    requires pos <= |src|
    ensures pos <= r.pos <= |src| && (r.result.Ok? ==> pos < r.pos)
    decreases |src| - pos, 2
  {
    var v := ParseValue(src, pos);
    if v.result.Err? then v
    else
      var more := items + [v.result.value];
      var at := SkipSpace(src, v.pos);
      if at >= |src| then Parsed(at, Err(UnterminatedArray))
      else if src[at] == 0x2C then ParseItems(src, SkipSpace(src, at + 1), more)
      else if src[at] == 0x5D then Parsed(at + 1, Ok(Array(more)))
      else Parsed(at + 1, Err(ExpectedArraySeparator))
  }

  /** The fields of an object still to come, up to its closing brace. */
  function ParseFields(src: Bytes, pos: nat, fields: seq<(Bytes, Json)>): (r: Parsed<Json>)
    requires pos <= |src|
    ensures pos <= r.pos <= |src| && (r.result.Ok? ==> pos < r.pos)
    decreases |src| - pos, 2
  {
    var field := ParseField(src, pos);
    if field.result.Err? then Parsed(field.pos, Err(field.result.error))
    else
      var more := fields + [field.result.value];
      var at := SkipSpace(src, field.pos);
      if at >= |src| then Parsed(at, Err(UnterminatedObject))
      else if src[at] == 0x2C then ParseFields(src, SkipSpace(src, at + 1), more)
      else if src[at] == 0x7D then Parsed(at + 1, Ok(Object(more)))
      else Parsed(at + 1, Err(ExpectedObjectSeparator))
  }

  /** A key, its colon and its value. */
  function ParseField(src: Bytes, pos: nat): (r: Parsed<(Bytes, Json)>)
    requires pos <= |src|
    ensures pos <= r.pos <= |src| && (r.result.Ok? ==> pos < r.pos)
    decreases |src| - pos, 1
  {
    var key := ParseString(src, SkipSpace(src, pos));
    if key.result.Err? then Parsed(key.pos, Err(key.result.error))
    else
      var colon := SkipSpace(src, key.pos);
      if !Peeks(src, colon, 0x3A) then Parsed(Bump(src, colon), Err(ExpectedColon))
      else
        var v := ParseValue(src, colon + 1);
        Parsed(v.pos, if v.result.Ok? then Ok((key.result.value, v.result.value)) else Err(v.result.error))
  }

  /** A whole document: one value and nothing else. */
  function ParseDocument(src: Bytes): Parsed<Json> {
    var v := ParseValue(src, 0);
    if v.result.Err? then v
    else
      var end := SkipSpace(src, v.pos);
      Parsed(end, if end == |src| then v.result else Err(TrailingData))
  }
}
