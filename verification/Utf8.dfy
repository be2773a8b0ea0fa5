/** UTF-8 as an encoding. */
module Utf8 {
  /*
   The bytes of a character (RFC 3629, section 3), and what they have to do with the byte-wise test of
   validity: a byte sequence is valid exactly when it is the encoding of a sequence of characters.
  */

  import opened Bytes

  /** A Unicode scalar value: a code point that is no surrogate. */
  predicate IsScalar(n: nat) {
    n < 0xD800 || 0xE000 <= n < 0x11_0000
  }

  function CharBytes(n: nat): (b: seq<Byte>)
    requires n < 0x11_0000
    ensures 1 <= |b| <= 4 && (n < 0x1_0000 ==> |b| <= 3)
  {
    if n < 0x80 then [n]
    else if n < 0x800 then [0xC0 + n / 64, 0x80 + n % 64]
    else if n < 0x1_0000 then [0xE0 + n / 4096, 0x80 + n / 64 % 64, 0x80 + n % 64]
    else [0xF0 + n / 262144, 0x80 + n / 4096 % 64, 0x80 + n / 64 % 64, 0x80 + n % 64]
  }

  function Encoded(chars: seq<nat>): seq<Byte>
    requires forall c | c in chars :: IsScalar(c)
  {
    if chars == [] then []
    else
      assert IsScalar(chars[0]);
      CharBytes(chars[0]) + Encoded(chars[1..])
  }

  lemma LengthOfChar(n: nat, rest: seq<Byte>)
    requires IsScalar(n)
    ensures CharLength(CharBytes(n) + rest) == |CharBytes(n)|
  {
    if n < 0x800 {
      ShortChar(n, rest);
    } else if n < 0x1_0000 {
      LongChar(n, rest);
    } else {
      WideChar(n, rest);
    }
  }

  lemma ShortChar(n: nat, rest: seq<Byte>)
    requires n < 0x800
    ensures CharLength(CharBytes(n) + rest) == |CharBytes(n)|
  {
    var b := CharBytes(n) + rest;
    assert n >= 0x80 ==> b[0] == 0xC0 + n / 64 && b[1] == 0x80 + n % 64;
  }

  lemma LongChar(n: nat, rest: seq<Byte>)
    requires 0x800 <= n < 0x1_0000 && IsScalar(n)
    ensures CharLength(CharBytes(n) + rest) == |CharBytes(n)|
  {
    var b := CharBytes(n) + rest;
    assert b[0] == 0xE0 + n / 4096 && b[1] == 0x80 + n / 64 % 64 && b[2] == 0x80 + n % 64;
    assert Continues(b, 1, 3);
    hide Continues, CharBytes;
    assert n / 64 == n / 4096 * 64 + n / 64 % 64 by {
      assert n / 64 / 64 == n / 4096;
    }
  }

  lemma WideChar(n: nat, rest: seq<Byte>)
    requires 0x1_0000 <= n < 0x11_0000
    ensures CharLength(CharBytes(n) + rest) == |CharBytes(n)|
  {
    var b := CharBytes(n) + rest;
    assert b[0] == 0xF0 + n / 262144 && b[1] == 0x80 + n / 4096 % 64;
    assert b[2] == 0x80 + n / 64 % 64 && b[3] == 0x80 + n % 64;
    assert Continues(b, 1, 4);
    hide Continues, CharBytes;
    assert n / 4096 == n / 262144 * 64 + n / 4096 % 64 by {
      assert n / 4096 / 64 == n / 262144;
    }
  }

  lemma {:induction false} EncodedIsValid(chars: seq<nat>)
    requires forall c | c in chars :: IsScalar(c)
    ensures ValidUtf8(Encoded(chars))
  {
    if chars != [] {
      LengthOfChar(chars[0], Encoded(chars[1..]));
      EncodedIsValid(chars[1..]);
      hide CharLength, CharBytes;
      assert Encoded(chars)[|CharBytes(chars[0])|..] == Encoded(chars[1..]);
    }
  }

  /** The character at the head of a valid sequence. */
  lemma HeadChar(b: seq<Byte>) returns (n: nat)
    requires b != [] && CharLength(b) > 0
    ensures IsScalar(n) && CharBytes(n) == b[..CharLength(b)]
  {
    var k := CharLength(b);
    if k == 1 {
      n := b[0];
    } else if k == 2 {
      var x: nat, y: nat := b[0] - 0xC0, b[1] - 0x80;
      n := x * 64 + y;
    } else if k == 3 {
      n := ThreeByteChar(b);
    } else {
      n := FourByteChar(b);
    }
  }

  lemma ThreeByteChar(b: seq<Byte>) returns (n: nat)
    requires b != [] && CharLength(b) == 3
    ensures IsScalar(n) && CharBytes(n) == b[..3]
  {
    var x: nat, y: nat, z: nat := b[0] - 0xE0, b[1] - 0x80, b[2] - 0x80;
    assert 0 <= x < 16 && 0 <= y < 64 && 0 <= z < 64 && (x == 0 ==> y >= 32) && (x == 13 ==> y < 32);
    hide CharLength;
    n := x * 4096 + y * 64 + z;
    assert n / 64 == x * 64 + y && n % 64 == z && n / 4096 == x;
  }

  lemma FourByteChar(b: seq<Byte>) returns (n: nat)
    requires b != [] && CharLength(b) == 4
    ensures IsScalar(n) && CharBytes(n) == b[..4]
  {
    var w: nat, x: nat, y: nat, z: nat := b[0] - 0xF0, b[1] - 0x80, b[2] - 0x80, b[3] - 0x80;
    assert 0 <= w < 5 && 0 <= x < 64 && 0 <= y < 64 && 0 <= z < 64 && (w == 0 ==> x >= 16) && (w == 4 ==> x < 16);
    hide CharLength;
    n := w * 262144 + x * 4096 + y * 64 + z;
    FourParts(w, x, y, z);
    assert 0x1_0000 <= n < 0x11_0000;
  }

  lemma FourParts(w: nat, x: nat, y: nat, z: nat)
    requires x < 64 && y < 64 && z < 64
    ensures
      var n := w * 262144 + x * 4096 + y * 64 + z;
      n / 262144 == w && n / 4096 % 64 == x && n / 64 % 64 == y && n % 64 == z
  {
    var n := w * 262144 + x * 4096 + y * 64 + z;
    assert n / 64 == w * 4096 + x * 64 + y;
    assert n / 4096 == w * 64 + x;
  }

  lemma {:induction false} ValidIsEncoded(b: seq<Byte>) returns (chars: seq<nat>)
    requires ValidUtf8(b)
    ensures (forall c | c in chars :: IsScalar(c)) && Encoded(chars) == b
    decreases |b|
  {
    hide CharLength, CharBytes;
    if b == [] {
      chars := [];
    } else {
      var k := CharLength(b);
      var n := HeadChar(b);
      var rest := ValidIsEncoded(b[k..]);
      chars := [n] + rest;
      assert chars[1..] == rest && b == b[..k] + b[k..];
    }
  }

  /** A byte sequence is valid exactly when it encodes a sequence of characters. */
  lemma ValidExactly(b: seq<Byte>)
    ensures ValidUtf8(b) <==>
      exists chars: seq<nat> :: (forall c | c in chars :: IsScalar(c)) && Encoded(chars) == b
  {
    hide ValidUtf8, IsScalar, Encoded;
    if ValidUtf8(b) {
      var chars := ValidIsEncoded(b);
    }
    if chars: seq<nat> :| (forall c | c in chars :: IsScalar(c)) && Encoded(chars) == b {
      EncodedIsValid(chars);
    }
  }
}
