/**
 Bytes, ASCII text as bytes, and UTF-8 validity (RFC 3629, section 4).

 A string is the sequence of its bytes wherever the original compares, bounds or splits it by bytes.
 Splitting at a separator is here as well, with the two facts that the other modules need: a piece
 without separator stands alone, and the first piece can be taken off. Overlong forms, surrogates
 and code points above the last one are not valid.
 */
module Bytes {
  type Byte = n: nat | n < 256

  function Ascii(text: string): (b: seq<Byte>)
    requires forall i | 0 <= i < |text| :: text[i] < 128 as char
    ensures |b| == |text|
  {
    seq(|text|, i requires 0 <= i < |text| => text[i] as nat)
  }

  predicate Continues(b: seq<Byte>, from: nat, to: nat) {
    to <= |b| && forall i | from <= i < to :: 0x80 <= b[i] <= 0xBF
  }

  /** The length of the well-formed character at the head of `b`, or 0. */
  function CharLength(b: seq<Byte>): nat
    requires b != []
    ensures CharLength(b) <= |b|
  {
    if b[0] < 0x80 then 1
    else if 0xC2 <= b[0] <= 0xDF && Continues(b, 1, 2) then 2
    else if b[0] == 0xE0 && Continues(b, 1, 3) && b[1] >= 0xA0 then 3
    else if b[0] == 0xED && Continues(b, 1, 3) && b[1] <= 0x9F then 3
    else if 0xE1 <= b[0] <= 0xEF && b[0] != 0xED && Continues(b, 1, 3) then 3
    else if b[0] == 0xF0 && Continues(b, 1, 4) && b[1] >= 0x90 then 4
    else if b[0] == 0xF4 && Continues(b, 1, 4) && b[1] <= 0x8F then 4
    else if 0xF1 <= b[0] <= 0xF3 && Continues(b, 1, 4) then 4
    else 0
  }

  predicate ValidUtf8(b: seq<Byte>) {
    b == [] || (CharLength(b) > 0 && ValidUtf8(b[CharLength(b)..]))
  }

  /** The UTF-8 bytes of one character of white space. */
  predicate IsSpace(c: seq<Byte>) {
    match |c|
    case 1 => 9 <= c[0] <= 13 || c[0] == 32
    case 2 => c == [0xC2, 0x85] || c == [0xC2, 0xA0]
    case 3 =>
      || c == [0xE1, 0x9A, 0x80] || c == [0xE2, 0x81, 0x9F] || c == [0xE3, 0x80, 0x80]
      || (c[0] == 0xE2 && c[1] == 0x80 && (0x80 <= c[2] <= 0x8A || c[2] in {0xA8, 0xA9, 0xAF}))
    case _ => false
  }

  function TrimStart(s: seq<Byte>): seq<Byte> {
    if |s| >= 1 && IsSpace(s[..1]) then TrimStart(s[1..])
    else if |s| >= 2 && IsSpace(s[..2]) then TrimStart(s[2..])
    else if |s| >= 3 && IsSpace(s[..3]) then TrimStart(s[3..])
    else s
  }

  function TrimEnd(s: seq<Byte>): seq<Byte> {
    var n := |s|;
    if n >= 1 && IsSpace(s[n - 1..]) then TrimEnd(s[..n - 1])
    else if n >= 2 && IsSpace(s[n - 2..]) then TrimEnd(s[..n - 2])
    else if n >= 3 && IsSpace(s[n - 3..]) then TrimEnd(s[..n - 3])
    else s
  }

  /** Without the white space around it. */
  function Trim(s: seq<Byte>): seq<Byte> {
    TrimEnd(TrimStart(s))
  }

  lemma {:induction false} AsciiIsUtf8(b: seq<Byte>)
    requires forall i | 0 <= i < |b| :: b[i] < 0x80
    ensures ValidUtf8(b)
    decreases |b|
  {
    if b != [] {
      AsciiIsUtf8(b[1..]);
    }
  }

  /** The pieces of `s` between the occurrences of `sep`; at least one. */
  function Split<T(==)>(s: seq<T>, sep: T): (parts: seq<seq<T>>)
    ensures parts != []
  {
    if s == [] then [[]]
    else
      var rest := Split(s[1..], sep);
      if s[0] == sep then [[]] + rest else [[s[0]] + rest[0]] + rest[1..]
  }

  /** A piece without separator stands alone, and a separator after it starts the next piece. */
  lemma {:induction false} SplitPiece<T>(piece: seq<T>, sep: T, rest: seq<T>)
    requires sep !in piece
    ensures Split(piece, sep) == [piece]
    ensures Split(piece + [sep] + rest, sep) == [piece] + Split(rest, sep)
  {
    var all := piece + [sep] + rest;
    if piece == [] {
      assert all[1..] == rest;
    } else {
      SplitPiece(piece[1..], sep, rest);
      assert piece == [piece[0]] + piece[1..];
      assert all[1..] == piece[1..] + [sep] + rest;
    }
  }

  /** The first piece, and what is split after it. */
  lemma {:induction false} FirstPiece<T>(s: seq<T>, sep: T) returns (piece: seq<T>, rest: seq<T>)
    ensures sep !in piece && piece == Split(s, sep)[0]
    ensures |Split(s, sep)| == 1 ==> s == piece
    ensures |Split(s, sep)| > 1 ==> s == piece + [sep] + rest && Split(s, sep)[1..] == Split(rest, sep)
  {
    if s == [] {
      piece, rest := [], [];
    } else if s[0] == sep {
      piece, rest := [], s[1..];
    } else {
      piece, rest := FirstPiece(s[1..], sep);
      piece := [s[0]] + piece;
      assert s == [s[0]] + s[1..];
    }
  }
}
