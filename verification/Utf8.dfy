/** UTF-8 as an encoding of scalar values (section 3.9 of the Unicode Standard, table 3-6), against which the validity
    test of names and terminal output is held. */
module Utf8 {
  import opened Words
  import opened Ramdisk

  /** A Unicode scalar value: a code point that is no surrogate. */
  predicate Scalar(c: nat) {
    c < 0xD800 || 0xE000 <= c < 0x11_0000
  }

  function EncodeChar(c: nat): (b: seq<Byte>)
    requires Scalar(c)
    ensures |b| > 0
  {
    if c < 0x80 then [c]
    else if c < 0x800 then [0xC0 + c / 64, 0x80 + c % 64]
    else if c < 0x1_0000 then [0xE0 + c / 4096, 0x80 + c / 64 % 64, 0x80 + c % 64]
    else [0xF0 + c / 262144, 0x80 + c / 4096 % 64, 0x80 + c / 64 % 64, 0x80 + c % 64]
  }

  function Encode(cs: seq<nat>): seq<Byte>
    requires forall i :: 0 <= i < |cs| ==> Scalar(cs[i])
  {
    if cs == [] then [] else EncodeChar(cs[0]) + Encode(cs[1..])
  }

  /** Every encoded character is recognised with its length, whatever follows. */
  lemma CharRecognised(c: nat, rest: seq<Byte>)
    requires Scalar(c)
    ensures CharLength(EncodeChar(c) + rest) == |EncodeChar(c)|
  {
    if 0x800 <= c < 0x1_0000 {
      ThreeRecognised(c, rest);
    } else if c >= 0x1_0000 {
      FourRecognised(c, rest);
    }
  }

  lemma ThreeRecognised(c: nat, rest: seq<Byte>)
    requires Scalar(c) && 0x800 <= c < 0x1_0000
    ensures CharLength(EncodeChar(c) + rest) == 3
  {
    var b, x, y := EncodeChar(c) + rest, c / 4096, c / 64 % 64;
    assert c / 64 == 64 * x + y;
    assert b[0] == 0xE0 + x && b[1] == 0x80 + y && b[2] == 0x80 + c % 64;
  }

  lemma FourRecognised(c: nat, rest: seq<Byte>)
    requires Scalar(c) && c >= 0x1_0000
    ensures CharLength(EncodeChar(c) + rest) == 4
  {
    var b, x, y := EncodeChar(c) + rest, c / 262144, c / 4096 % 64;
    assert c / 4096 == 64 * x + y;
    assert b[0] == 0xF0 + x && b[1] == 0x80 + y && b[2] == 0x80 + c / 64 % 64 && b[3] == 0x80 + c % 64;
  }

  /** Whatever is recognised as a character is the encoding of one. */
  lemma CharDecoded(b: seq<Byte>) returns (c: nat)
    requires CharLength(b) > 0
    ensures Scalar(c) && b[..CharLength(b)] == EncodeChar(c)
  {
    var n := CharLength(b);
    if n == 1 {
      c := b[0];
    } else if n == 2 {
      var x: int, y: int := b[0] - 0xC0, b[1] - 0x80;
      c := x * 64 + y;
    } else if n == 3 {
      c := Decode3(b);
    } else {
      c := Decode4(b);
    }
  }

  lemma Decode3(b: seq<Byte>) returns (c: nat)
    requires CharLength(b) == 3
    ensures Scalar(c) && b[..3] == EncodeChar(c)
  {
    var x: int, y: int, z: int := b[0] - 0xE0, b[1] - 0x80, b[2] - 0x80;
    var h := x * 64 + y;
    c := h * 64 + z;
    assert c / 64 == h && c % 64 == z;
    assert c / 4096 == x && h % 64 == y;
  }

  lemma Decode4(b: seq<Byte>) returns (c: nat)
    requires CharLength(b) == 4
    ensures Scalar(c) && b[..4] == EncodeChar(c)
  {
    var x: int, y: int, z: int, w: int := b[0] - 0xF0, b[1] - 0x80, b[2] - 0x80, b[3] - 0x80;
    var g := x * 64 + y;
    var h := g * 64 + z;
    c := h * 64 + w;
    assert c / 64 == h && c % 64 == w;
    assert c / 4096 == g && h % 64 == z;
    assert c / 262144 == x && g % 64 == y;
  }

  lemma {:induction false} EncodedIsValid(cs: seq<nat>)
    requires forall i :: 0 <= i < |cs| ==> Scalar(cs[i])
    ensures ValidUtf8(Encode(cs))
  {
    hide CharLength, EncodeChar;
    if cs != [] {
      EncodedIsValid(cs[1..]);
      CharRecognised(cs[0], Encode(cs[1..]));
      assert Encode(cs)[|EncodeChar(cs[0])|..] == Encode(cs[1..]);
    }
  }

  lemma {:induction false} ValidDecodes(b: seq<Byte>) returns (cs: seq<nat>)
    requires ValidUtf8(b)
    ensures (forall i :: 0 <= i < |cs| ==> Scalar(cs[i])) && Encode(cs) == b
    decreases |b|
  {
    hide CharLength, EncodeChar, Scalar;
    cs := [];
    if b != [] {
      var n := CharLength(b);
      var rest := ValidDecodes(b[n..]);
      var c := CharDecoded(b);
      cs := [c] + rest;
      assert cs[1..] == rest;
      assert b == b[..n] + b[n..];
    }
  }

  ghost predicate Encodes(cs: seq<nat>, b: seq<Byte>) {
    (forall i :: 0 <= i < |cs| ==> Scalar(cs[i])) && Encode(cs) == b
  }

  /** `from_utf8` accepts exactly the encodings of sequences of scalar values. */
  lemma ValidIffEncoded(b: seq<Byte>)
    ensures ValidUtf8(b) <==> exists cs :: Encodes(cs, b)
  {
    if ValidUtf8(b) {
      var cs := ValidDecodes(b);
      assert Encodes(cs, b);
    }
    if cs :| Encodes(cs, b) {
      EncodedIsValid(cs);
    }
  }
}
