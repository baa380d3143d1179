/** UTF-8 as section 4 of RFC 3629 defines it. */
module Utf8 {
  type Byte = x: int | 0 <= x < 256

  type Bytes = seq<Byte>

  /** A Unicode scalar value: any code point but a surrogate. */
  type Scalar = x: int | 0 <= x < 0x110000 && !(0xD800 <= x < 0xE000)

  function EncodeOne(c: Scalar): (r: Bytes)
    ensures r != []
  {
    if c < 0x80 then [c]
    else if c < 0x800 then [0xC0 + c / 64, 0x80 + c % 64]
    else if c < 0x10000 then [0xE0 + c / 4096, 0x80 + c / 64 % 64, 0x80 + c % 64]
    else [0xF0 + c / 262144, 0x80 + c / 4096 % 64, 0x80 + c / 64 % 64, 0x80 + c % 64]
  }

  /** ASCII text as bytes. */
  function Ascii(s: string): Bytes {
    seq(|s|, i requires 0 <= i < |s| => if s[i] < 128 as char then s[i] as int else 0)
  }

  function Encode(cs: seq<Scalar>): Bytes {
    if cs == [] then [] else EncodeOne(cs[0]) + Encode(cs[1..])
  }

  predicate Continues(b: Byte) {
    0x80 <= b < 0xC0
  }

  /** The length of the character that starts `b`, or 0 when none does. */
  function CharLength(b: Bytes): (n: nat)
    ensures n <= |b|
  {
    if b == [] then 0
    else if b[0] < 0x80 then 1
    else if 0xC2 <= b[0] < 0xE0 then
      if |b| >= 2 && Continues(b[1]) then 2 else 0
    else if 0xE0 <= b[0] < 0xF0 then
      if |b| >= 3 && Continues(b[1]) && Continues(b[2])
         && (b[0] == 0xE0 ==> b[1] >= 0xA0) && (b[0] == 0xED ==> b[1] < 0xA0) then 3 else 0
    else if 0xF0 <= b[0] < 0xF5 then
      if |b| >= 4 && Continues(b[1]) && Continues(b[2]) && Continues(b[3])
         && (b[0] == 0xF0 ==> b[1] >= 0x90) && (b[0] == 0xF4 ==> b[1] < 0x90) then 4 else 0
    else 0
  }

  /** `from_utf8` accepts `b`. */
  predicate Valid(b: Bytes)
    decreases |b|
  {
    b == [] || (CharLength(b) > 0 && Valid(b[CharLength(b)..]))
  }

  lemma EncodedLength(c: Scalar, rest: Bytes)
    ensures CharLength(EncodeOne(c) + rest) == |EncodeOne(c)|
  {
    var b := EncodeOne(c) + rest;
    if c < 0x80 {
    } else if c < 0x800 {
      assert b[0] == 0xC0 + c / 64 && b[1] == 0x80 + c % 64;
    } else if c < 0x10000 {
      assert b[0] == 0xE0 + c / 4096 && b[1] == 0x80 + c / 64 % 64 && b[2] == 0x80 + c % 64;
    } else {
      assert b[0] == 0xF0 + c / 262144 && b[1] == 0x80 + c / 4096 % 64;
      assert b[2] == 0x80 + c / 64 % 64 && b[3] == 0x80 + c % 64;
    }
  }

  lemma {:induction false} EncodeIsValid(cs: seq<Scalar>)
    ensures Valid(Encode(cs))
    decreases |cs|
  {
    if cs != [] {
      EncodedLength(cs[0], Encode(cs[1..]));
      assert Encode(cs)[|EncodeOne(cs[0])|..] == Encode(cs[1..]);
      EncodeIsValid(cs[1..]);
    }
  }

  lemma EncodeOneIsValid(c: Scalar)
    ensures Valid(EncodeOne(c))
  {
    EncodeIsValid([c]);
    assert Encode([c]) == EncodeOne(c) + [] == EncodeOne(c);
  }

  lemma LengthIsLocal(a: Bytes, b: Bytes)
    requires CharLength(a) > 0
    ensures CharLength(a + b) == CharLength(a)
  {
  }

  lemma {:induction false} ValidConcat(a: Bytes, b: Bytes)
    requires Valid(a) && Valid(b)
    ensures Valid(a + b)
    decreases |a|
  {
    if a == [] {
      assert a + b == b;
    } else {
      LengthIsLocal(a, b);
      var n := CharLength(a);
      assert (a + b)[n..] == a[n..] + b;
      ValidConcat(a[n..], b);
    }
  }

  lemma {:induction false} EncodeConcat(a: seq<Scalar>, b: seq<Scalar>)
    ensures Encode(a + b) == Encode(a) + Encode(b)
    decreases |a|
  {
    if a == [] {
      assert a + b == b;
    } else {
      assert (a + b)[1..] == a[1..] + b;
      EncodeConcat(a[1..], b);
    }
  }

  /** The code point that the bytes of one character encode. */
  function DecodeOne(b: Bytes): int
    requires b != []
  {
    if |b| == 1 then b[0]
    else if |b| == 2 then b[0] as int * 64 + b[1] as int - 0x3080
    else if |b| == 3 then b[0] as int * 4096 + b[1] as int * 64 + b[2] as int - 0xE2080
    else if |b| == 4 then
      b[0] as int * 262144 + b[1] as int * 4096 + b[2] as int * 64 + b[3] as int - 0x3C82080
    else 0
  }

  lemma DecodeEncode(c: Scalar)
    ensures DecodeOne(EncodeOne(c)) == c
  {
    assert c / 64 / 64 == c / 4096 && c / 4096 / 64 == c / 262144;
  }

  lemma OneInjective(a: Scalar, b: Scalar)
    requires EncodeOne(a) == EncodeOne(b)
    ensures a == b
  {
    hide EncodeOne, DecodeOne;
    DecodeEncode(a);
    DecodeEncode(b);
  }

  /** Different texts have different bytes. */
  lemma {:induction false} EncodeInjective(a: seq<Scalar>, b: seq<Scalar>)
    requires Encode(a) == Encode(b)
    ensures a == b
    decreases |a|
  {
    hide CharLength;
    if a != [] && b != [] {
      EncodedLength(a[0], Encode(a[1..]));
      EncodedLength(b[0], Encode(b[1..]));
      var n := |EncodeOne(a[0])|;
      assert EncodeOne(a[0]) == Encode(a)[..n];
      assert EncodeOne(b[0]) == Encode(b)[..n];
      OneInjective(a[0], b[0]);
      assert Encode(a[1..]) == Encode(a)[n..];
      assert Encode(b[1..]) == Encode(b)[n..];
      EncodeInjective(a[1..], b[1..]);
      assert a == [a[0]] + a[1..] && b == [b[0]] + b[1..];
    }
  }
}
