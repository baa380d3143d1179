/** The JSON reader itself: a cursor over the bytes (`JsonParser`). */
module JsonParser {
  import opened Outcome
  import opened Utf8
  import opened Json

  class Parser {
    const src: Bytes
    var pos: nat

    predicate Within()
      reads this
    {
      pos <= |src|
    }

    constructor (text: Bytes)
      ensures src == text && pos == 0 && Within()
    {
      src, pos := text, 0;
    }

    function Peek(): Option<Byte>
      reads this
    {
      if pos < |src| then Some(src[pos]) else None
    }

    method Next() returns (byte: Option<Byte>)
      requires Within()
      modifies this
      ensures Within() && byte == old(Peek()) && pos == Bump(src, old(pos))
    {
      byte := Peek();
      if byte.Some? {
        pos := pos + 1;
      }
    }

    method Skip()
      requires Within()
      modifies this
      ensures Within() && pos == SkipSpace(src, old(pos))
    {
      while pos < |src| && Space(src[pos])
        invariant Within() && SkipSpace(src, pos) == SkipSpace(src, old(pos))
        decreases |src| - pos
      {
        pos := pos + 1;
      }
    }

    method Literal(literal: Bytes, value: Json) returns (r: Result<Json, Problem>)
      requires Within() && literal != []
      modifies this
      ensures Within() && Parsed(pos, r) == ParseLiteral(src, old(pos), literal, value)
    {
      var end := pos + |literal|;
      if end <= |src| && src[pos..end] == literal {
        pos := end;
        return Ok(value);
      }
      return Err(InvalidLiteral);
    }

    method NumberValue() returns (r: Result<Json, Problem>)
      requires Within()
      modifies this
      ensures Within() && Parsed(pos, r) == ParseNumber(src, old(pos))
    {
      var start := pos;
      if Peek() == Some(0x2D) {
        pos := pos + 1;
      }
      ghost var first := pos;
      var digits := 0;
      while pos < |src| && NumberByte(src[pos])
        invariant Within() && first <= pos
        invariant NumberRun(src, first) == (NumberRun(src, pos).0, NumberRun(src, pos).1 + digits)
        decreases |src| - pos
      {
        if Digit(src[pos]) {
          digits := digits + 1;
        }
        pos := pos + 1;
      }
      if digits == 0 {
        return Err(InvalidNumber);
      }
      return Ok(Number(src[start..pos]));
    }

    method Hex4() returns (r: Result<nat, Problem>)
      requires Within()
      modifies this
      ensures Within() && Parsed(pos, r) == ParseHex(src, old(pos), 4, 0)
    {
      var value: nat := 0;
      for i := 0 to 4
        invariant Within()
        invariant ParseHex(src, old(pos), 4, 0) == ParseHex(src, pos, 4 - i, value)
      {
        var byte := Next();
        if byte.None? {
          return Err(TruncatedEscape);
        }
        if !HexDigit(byte.value) {
          return Err(InvalidHexDigit);
        }
        value := value * 16 + HexValue(byte.value);
      }
      return Ok(value);
    }

    method UnicodeEscape() returns (r: Result<Scalar, Problem>)
      requires Within()
      modifies this
      ensures Within() && Parsed(pos, r) == ParseUnicode(src, old(pos))
    {
      hide ParseHex;
      var high := Hex4();
      if high.Err? {
        return Err(high.error);
      }
      if IsHigh(high.value) {
        var backslash := Next();
        if backslash != Some(BACKSLASH) {
          return Err(InvalidSurrogatePair);
        }
        var u := Next();
        if u != Some(0x75) {
          return Err(InvalidSurrogatePair);
        }
        var low := Hex4();
        if low.Err? {
          return Err(low.error);
        }
        if !IsLow(low.value) {
          return Err(InvalidSurrogatePair);
        }
        return Ok(PairScalar(high.value, low.value));
      }
      if IsLow(high.value) {
        return Err(InvalidCodePoint);
      }
      return Ok(high.value);
    }

    method StringText() returns (r: Result<Bytes, Problem>)
      requires Within()
      modifies this
      ensures Within() && Parsed(pos, r) == ParseString(src, old(pos))
    {
      hide ParseUnicode, EncodeOne, Utf8.Valid;
      if Peek() != Some(QUOTE) {
        return Err(ExpectedString);
      }
      pos := pos + 1;
      var out: Bytes := [];
      while true
        invariant Within()
        invariant ParseString(src, old(pos)) == ParseChars(src, pos, out)
        decreases |src| - pos
      {
        var byte := Next();
        if byte.None? {
          return Err(UnterminatedString);
        }
        if byte.value == QUOTE {
          return if Utf8.Valid(out) then Ok(out) else Err(NotUtf8);
        }
        if byte.value != BACKSLASH {
          out := out + [byte.value];
        } else {
          var escape := Next();
          if escape.None? {
            return Err(UnterminatedEscape);
          }
          if ShortEscape(escape.value).Some? {
            out := out + [ShortEscape(escape.value).value];
          } else if escape.value == 0x75 {
            var c := UnicodeEscape();
            if c.Err? {
              return Err(c.error);
            }
            out := out + EncodeOne(c.value);
          } else {
            return Err(InvalidEscape);
          }
        }
      }
    }

    method Value() returns (r: Result<Json, Problem>)
      requires Within()
      modifies this
      ensures Within() && Parsed(pos, r) == ParseValue(src, old(pos))
      decreases |src| - pos, 1
    {
      hide ParseItems, ParseFields, ParseString, ParseLiteral, ParseNumber, SkipSpace;
      Skip();
      var byte := Peek();
      if byte.None? {
        return Err(UnexpectedEnd);
      }
      if byte.value == 0x7B {
        r := ObjectValue();
      } else if byte.value == 0x5B {
        r := ArrayValue();
      } else if byte.value == QUOTE {
        var s := StringText();
        r := if s.Ok? then Ok(Str(s.value)) else Err(s.error);
      } else if byte.value == 0x74 {
        r := Literal(TRUE, Bool(true));
      } else if byte.value == 0x66 {
        r := Literal(FALSE, Bool(false));
      } else if byte.value == 0x6E {
        r := Literal(NULL, Null);
      } else if byte.value == 0x2D || Digit(byte.value) {
        r := NumberValue();
      } else {
        r := Err(UnexpectedCharacter);
      }
    }

    method ArrayValue() returns (r: Result<Json, Problem>)
      requires pos < |src| && src[pos] == 0x5B
      modifies this
      ensures Within()
      ensures
        var first := SkipSpace(src, old(pos) + 1);
        Parsed(pos, r) ==
          if Peeks(src, first, 0x5D) then Parsed(first + 1, Ok(Array([]))) else ParseItems(src, first, [])
      decreases |src| - pos, 0
    {
      hide ParseValue, SkipSpace;
      pos := pos + 1;
      Skip();
      if Peek() == Some(0x5D) {
        pos := pos + 1;
        return Ok(Array([]));
      }
      var items: seq<Json> := [];
      ghost var first := pos;
      while true
        invariant Within() && old(pos) < first <= pos
        invariant ParseItems(src, first, []) == ParseItems(src, pos, items)
        decreases |src| - pos
      {
        var item := Value();
        if item.Err? {
          return item;
        }
        items := items + [item.value];
        Skip();
        var byte := Next();
        if byte.None? {
          return Err(UnterminatedArray);
        }
        if byte.value == 0x2C {
          Skip();
        } else if byte.value == 0x5D {
          return Ok(Array(items));
        } else {
          return Err(ExpectedArraySeparator);
        }
      }
    }

    method ObjectValue() returns (r: Result<Json, Problem>)
      requires pos < |src| && src[pos] == 0x7B
      modifies this
      ensures Within()
      ensures
        var first := SkipSpace(src, old(pos) + 1);
        Parsed(pos, r) ==
          if Peeks(src, first, 0x7D) then Parsed(first + 1, Ok(Object([]))) else ParseFields(src, first, [])
      decreases |src| - pos, 0
    {
      hide ParseValue, SkipSpace, ParseString;
      pos := pos + 1;
      Skip();
      if Peek() == Some(0x7D) {
        pos := pos + 1;
        return Ok(Object([]));
      }
      var fields: seq<(Bytes, Json)> := [];
      ghost var first := pos;
      while true
        invariant Within() && old(pos) < first <= pos
        invariant ParseFields(src, first, []) == ParseFields(src, pos, fields)
        decreases |src| - pos
      {
        Skip();
        var key := StringText();
        if key.Err? {
          return Err(key.error);
        }
        Skip();
        var colon := Next();
        if colon != Some(0x3A) {
          return Err(ExpectedColon);
        }
        var value := Value();
        if value.Err? {
          return value;
        }
        fields := fields + [(key.value, value.value)];
        Skip();
        var byte := Next();
        if byte.None? {
          return Err(UnterminatedObject);
        }
        if byte.value == 0x2C {
          Skip();
        } else if byte.value == 0x7D {
          return Ok(Object(fields));
        } else {
          return Err(ExpectedObjectSeparator);
        }
      }
    }
  }

  /** The decoding half of `parse_published`. */
  method Decode(text: Bytes) returns (r: Result<Json, Problem>)
    ensures r == ParseDocument(text).result
  {
    var parser := new Parser(text);
    r := parser.Value();
    if r.Ok? {
      parser.Skip();
      if parser.pos != |parser.src| {
        return Err(TrailingData);
      }
    }
  }
}
