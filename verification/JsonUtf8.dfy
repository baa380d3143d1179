/** The reader's own check that a string is UTF-8 never fails: the source is UTF-8,
    and bytes copied, escapes and encoded scalars keep it so. */
module JsonUtf8 {
  import opened Outcome
  import opened Slices
  import opened Utf8
  import opened Json
  import opened JsonRoundTrip

  /** A character of `src`, or its end, starts at `pos`. */
  predicate Boundary(src: Bytes, pos: nat) {
    pos <= |src| && Valid(src[pos..])
  }

  lemma NextBoundary(src: Bytes, pos: nat)
    requires Boundary(src, pos) && pos < |src| && src[pos] < 0x80
    ensures Boundary(src, pos + 1)
  {
    assert src[pos..][1..] == src[pos + 1..];
  }

  /** A character of more than one byte holds neither a quote nor a backslash. */
  lemma WholeCharacter(src: Bytes, pos: nat) returns (text: Bytes)
    requires Boundary(src, pos) && pos < |src| && src[pos] >= 0x80
    ensures text != [] && Stands(src, pos, text) && Boundary(src, pos + |text|) && Valid(text)
    ensures forall i :: 0 <= i < |text| ==> text[i] != QUOTE && text[i] != BACKSLASH
  {
    var n := CharLength(src[pos..]);
    text := src[pos..pos + n];
    assert src[pos..][n..] == src[pos + n..];
    assert text == src[pos..][..n];
    LeadingBytes(src[pos..]);
    assert text[n..] == [];
  }

  lemma LeadingBytes(b: Bytes)
    requires b != [] && b[0] >= 0x80 && CharLength(b) > 0
    ensures CharLength(b[..CharLength(b)]) == CharLength(b)
    ensures forall i :: 0 <= i < CharLength(b) ==> b[i] >= 0x80
  {
  }

  lemma {:induction false} SpaceKeepsBoundary(src: Bytes, pos: nat)
    requires Boundary(src, pos)
    ensures Boundary(src, SkipSpace(src, pos))
    decreases |src| - pos
  {
    if pos < |src| && Space(src[pos]) {
      NextBoundary(src, pos);
      SpaceKeepsBoundary(src, pos + 1);
    }
  }

  lemma {:induction false} RunKeepsBoundary(src: Bytes, pos: nat)
    requires Boundary(src, pos)
    ensures Boundary(src, NumberRun(src, pos).0)
    decreases |src| - pos
  {
    if pos < |src| && NumberByte(src[pos]) {
      NextBoundary(src, pos);
      RunKeepsBoundary(src, pos + 1);
    }
  }

  lemma {:induction false} TextKeepsBoundary(src: Bytes, pos: nat, text: Bytes)
    requires Boundary(src, pos) && Stands(src, pos, text)
    requires forall i :: 0 <= i < |text| ==> text[i] < 0x80
    ensures Boundary(src, pos + |text|)
    decreases |text|
  {
    if text != [] {
      StandsAt(src, pos, text, 0);
      NextBoundary(src, pos);
      assert text == [text[0]] + text[1..];
      StandsSplit(src, pos, [text[0]], text[1..]);
      TextKeepsBoundary(src, pos + 1, text[1..]);
    }
  }

  lemma {:induction false} HexKeepsBoundary(src: Bytes, pos: nat, n: nat, value: nat)
    requires Boundary(src, pos)
    ensures
      var h := ParseHex(src, pos, n, value);
      h.result != Err(NotUtf8) && (h.result.Ok? ==> Boundary(src, h.pos))
    decreases n
  {
    if n > 0 && pos < |src| && HexDigit(src[pos]) {
      NextBoundary(src, pos);
      HexKeepsBoundary(src, pos + 1, n - 1, value * 16 + HexValue(src[pos]));
    }
  }

  lemma UnicodeKeepsBoundary(src: Bytes, pos: nat)
    requires Boundary(src, pos)
    ensures
      var c := ParseUnicode(src, pos);
      c.result != Err(NotUtf8) && (c.result.Ok? ==> Boundary(src, c.pos))
  {
    hide ParseHex, Boundary;
    HexKeepsBoundary(src, pos, 4, 0);
    var high := ParseHex(src, pos, 4, 0);
    if high.result.Ok? && Peeks(src, high.pos, BACKSLASH) {
      NextBoundary(src, high.pos);
      if Peeks(src, high.pos + 1, 0x75) {
        NextBoundary(src, high.pos + 1);
        HexKeepsBoundary(src, high.pos + 2, 4, 0);
      }
    }
  }

  /** What a step leaves behind: no complaint about UTF-8, and a whole number of
      characters read. */
  predicate Clean<T>(src: Bytes, r: Parsed<T>) {
    r.result != Err(NotUtf8) && (r.result.Ok? ==> Boundary(src, r.pos))
  }

  lemma {:induction false} CharsAreUtf8(src: Bytes, pos: nat, out: Bytes)
    requires Boundary(src, pos) && Valid(out)
    ensures Clean(src, ParseChars(src, pos, out))
    decreases |src| - pos
  {
    hide Valid, Boundary, ParseUnicode, CharLength, EncodeOne;
    if pos >= |src| {
    } else if src[pos] == QUOTE {
      NextBoundary(src, pos);
    } else if src[pos] == BACKSLASH {
      NextBoundary(src, pos);
      if pos + 1 < |src| {
        EscapeIsUtf8(src, pos, out);
      }
    } else if src[pos] < 0x80 {
      NextBoundary(src, pos);
      AsciiIsValid(src[pos]);
      ValidConcat(out, [src[pos]]);
      CharsAreUtf8(src, pos + 1, out + [src[pos]]);
    } else {
      var text := WholeCharacter(src, pos);
      ValidConcat(out, text);
      StandsFits(src, pos, text);
      ReadBytes(src, pos, text, out);
      CharsAreUtf8(src, pos + |text|, out + text);
    }
  }

  lemma AsciiIsValid(b: Byte)
    requires b < 0x80
    ensures Valid([b])
  {
    assert [b][1..] == [];
  }

  lemma {:induction false} EscapeIsUtf8(src: Bytes, pos: nat, out: Bytes)
    requires Boundary(src, pos + 1) && Valid(out) && pos + 1 < |src| && src[pos] == BACKSLASH
    ensures Clean(src, ParseChars(src, pos, out))
    decreases |src| - pos, 0
  {
    hide Valid, Boundary, ParseUnicode, CharLength, EncodeOne;
    var e := src[pos + 1];
    if ShortEscape(e).Some? {
      NextBoundary(src, pos + 1);
      AsciiIsValid(ShortEscape(e).value);
      ValidConcat(out, [ShortEscape(e).value]);
      CharsAreUtf8(src, pos + 2, out + [ShortEscape(e).value]);
    } else if e == 0x75 {
      NextBoundary(src, pos + 1);
      UnicodeKeepsBoundary(src, pos + 2);
      var c := ParseUnicode(src, pos + 2);
      if c.result.Ok? {
        EncodeOneIsValid(c.result.value);
        ValidConcat(out, EncodeOne(c.result.value));
        CharsAreUtf8(src, c.pos, out + EncodeOne(c.result.value));
      }
    }
  }

  lemma StringIsUtf8(src: Bytes, pos: nat)
    requires Boundary(src, pos)
    ensures Clean(src, ParseString(src, pos))
  {
    hide Valid, Boundary, ParseChars;
    if Peeks(src, pos, QUOTE) {
      NextBoundary(src, pos);
      EmptyIsValid();
      CharsAreUtf8(src, pos + 1, []);
    }
  }

  lemma EmptyIsValid()
    ensures Valid([])
  {
  }

  lemma NumberIsUtf8(src: Bytes, pos: nat)
    requires Boundary(src, pos)
    ensures Clean(src, ParseNumber(src, pos))
  {
    hide Boundary, NumberRun;
    if Peeks(src, pos, 0x2D) {
      NextBoundary(src, pos);
      RunKeepsBoundary(src, pos + 1);
    } else {
      RunKeepsBoundary(src, pos);
    }
  }

  lemma LiteralIsUtf8(src: Bytes, pos: nat, literal: Bytes, value: Json)
    requires Boundary(src, pos) && literal in [TRUE, FALSE, NULL]
    ensures Clean(src, ParseLiteral(src, pos, literal, value))
  {
    hide Valid;
    var r := ParseLiteral(src, pos, literal, value);
    if r.result.Ok? {
      TextKeepsBoundary(src, pos, literal);
    }
  }

  lemma {:induction false} ValueIsUtf8(src: Bytes, pos: nat)
    requires Boundary(src, pos)
    ensures Clean(src, ParseValue(src, pos))
    decreases |src| - pos, 1
  {
    hide Boundary, SkipSpace, ParseItems, ParseFields, ParseString, ParseNumber, ParseLiteral;
    SpaceKeepsBoundary(src, pos);
    var at := SkipSpace(src, pos);
    if at < |src| {
      if src[at] == 0x7B || src[at] == 0x5B {
        NextBoundary(src, at);
        SpaceKeepsBoundary(src, at + 1);
        var first := SkipSpace(src, at + 1);
        if src[at] == 0x7B {
          if Peeks(src, first, 0x7D) {
            NextBoundary(src, first);
          } else {
            FieldsAreUtf8(src, first, []);
          }
        } else if Peeks(src, first, 0x5D) {
          NextBoundary(src, first);
        } else {
          ItemsAreUtf8(src, first, []);
        }
      } else if src[at] == QUOTE {
        StringIsUtf8(src, at);
      } else if src[at] == 0x2D || Digit(src[at]) {
        NumberIsUtf8(src, at);
      } else {
        LiteralIsUtf8(src, at, TRUE, Bool(true));
        LiteralIsUtf8(src, at, FALSE, Bool(false));
        LiteralIsUtf8(src, at, NULL, Null);
      }
    }
  }

  lemma {:induction false} ItemsAreUtf8(src: Bytes, pos: nat, items: seq<Json>)
    requires Boundary(src, pos)
    ensures Clean(src, ParseItems(src, pos, items))
    decreases |src| - pos, 2
  {
    hide Boundary, SkipSpace, ParseValue;
    ValueIsUtf8(src, pos);
    var v := ParseValue(src, pos);
    if v.result.Ok? {
      SpaceKeepsBoundary(src, v.pos);
      var at := SkipSpace(src, v.pos);
      if at < |src| && (src[at] == 0x2C || src[at] == 0x5D) {
        NextBoundary(src, at);
        SpaceKeepsBoundary(src, at + 1);
        ItemsAreUtf8(src, SkipSpace(src, at + 1), items + [v.result.value]);
      }
    }
  }

  lemma {:induction false} FieldsAreUtf8(src: Bytes, pos: nat, fields: seq<(Bytes, Json)>)
    requires Boundary(src, pos)
    ensures Clean(src, ParseFields(src, pos, fields))
    decreases |src| - pos, 2
  {
    hide Boundary, SkipSpace, ParseValue, ParseString;
    SpaceKeepsBoundary(src, pos);
    StringIsUtf8(src, SkipSpace(src, pos));
    var key := ParseString(src, SkipSpace(src, pos));
    if key.result.Ok? {
      SpaceKeepsBoundary(src, key.pos);
      var colon := SkipSpace(src, key.pos);
      if Peeks(src, colon, 0x3A) {
        NextBoundary(src, colon);
        ValueIsUtf8(src, colon + 1);
        var v := ParseValue(src, colon + 1);
        if v.result.Ok? {
          SpaceKeepsBoundary(src, v.pos);
          var at := SkipSpace(src, v.pos);
          if at < |src| && (src[at] == 0x2C || src[at] == 0x7D) {
            NextBoundary(src, at);
            SpaceKeepsBoundary(src, at + 1);
            FieldsAreUtf8(src, SkipSpace(src, at + 1), fields + [(key.result.value, v.result.value)]);
          }
        }
      }
    }
  }

  /** No UTF-8 source makes the reader say that a string is not UTF-8. */
  lemma NeverNotUtf8(src: Bytes)
    requires Valid(src)
    ensures ParseDocument(src).result != Err(NotUtf8)
  {
    hide ParseValue, SkipSpace;
    assert src[0..] == src;
    ValueIsUtf8(src, 0);
  }
}
