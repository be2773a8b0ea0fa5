/** Canonical base64. */
module Base64 {
  /*
   Decoding base64 and accepting only the canonical form: the decoded bytes are encoded again, slice by
   slice, and the text must be the same. Decoding is the forgiving one of browsers; the alphabet and
   the padding are those of RFC 4648, sections 4 and 3.5.
  */

  import opened Options
  import opened Lists
  import opened Bytes
  import opened JsonText
  import opened Regex

  type Sextet = n: nat | n < 64

  const PAD: Unit := 61
  const SLICE: nat := 32_766

  function CharOf(v: Sextet): Unit {
    if v < 26 then 65 + v else if v < 52 then 71 + v else if v < 62 then v - 4 else if v == 62 then 43 else 47
  }

  function SextetOf(c: Unit): Option<Sextet> {
    if 65 <= c <= 90 then Some(c - 65)
    else if 97 <= c <= 122 then Some(c - 71)
    else if 48 <= c <= 57 then Some(c + 4)
    else if c == 43 then Some(62)
    else if c == 47 then Some(63)
    else None
  }

  // ------------------------------------------------------------ encoding

  function Sextet0(x: Byte): Sextet {
    x / 4
  }

  function Sextet1(x: Byte, y: Byte): Sextet {
    x % 4 * 16 + y / 16
  }

  function Sextet2(y: Byte, z: Byte): Sextet {
    y % 16 * 4 + z / 64
  }

  function Sextet3(z: Byte): Sextet {
    z % 64
  }

  function Group(bytes: seq<Byte>): seq<Sextet>
    requires |bytes| >= 3
  {
    [Sextet0(bytes[0]), Sextet1(bytes[0], bytes[1]), Sextet2(bytes[1], bytes[2]), Sextet3(bytes[2])]
  }

  /** Three bytes as four sextets; at the end one byte as two, or two bytes as three. */
  function Sextets(bytes: seq<Byte>): seq<Sextet> {
    if bytes == [] then []
    else if |bytes| == 1 then [Sextet0(bytes[0]), Sextet1(bytes[0], 0)]
    else if |bytes| == 2 then [Sextet0(bytes[0]), Sextet1(bytes[0], bytes[1]), Sextet2(bytes[1], 0)]
    else Group(bytes) + Sextets(bytes[3..])
  }

  function Chars(sextets: seq<Sextet>): Text {
    seq(|sextets|, i requires 0 <= i < |sextets| => CharOf(sextets[i]))
  }

  function Padding(bytes: seq<Byte>): Text {
    if |bytes| % 3 == 1 then [PAD, PAD] else if |bytes| % 3 == 2 then [PAD] else []
  }

  function Encode(bytes: seq<Byte>): Text {
    Chars(Sextets(bytes)) + Padding(bytes)
  }

  // ------------------------------------------------------------ forgiving decoding

  predicate IsSpace(c: Unit) {
    c == 9 || c == 10 || c == 12 || c == 13 || c == 32
  }

  function WithoutSpace(text: Text): Text {
    if text == [] then [] else (if IsSpace(text[0]) then [] else [text[0]]) + WithoutSpace(text[1..])
  }

  /** At a whole number of groups, one or two padding characters are dropped. */
  function WithoutPadding(text: Text): Text {
    var n := |text|;
    if n % 4 != 0 || n == 0 || text[n - 1] != PAD then text
    else if text[n - 2] != PAD then text[..n - 1]
    else text[..n - 2]
  }

  function Byte0(a: nat, b: nat): Byte
    requires a < 64 && b < 64
  {
    a * 4 + b / 16
  }

  function Byte1(b: nat, c: nat): Byte
    requires b < 64 && c < 64
  {
    b % 16 * 16 + c / 4
  }

  function Byte2(c: nat, d: nat): Byte
    requires c < 64 && d < 64
  {
    c % 4 * 64 + d
  }

  /** Leftover bits of a short last group are dropped. */
  function BytesOf(s: seq<Sextet>): seq<Byte> {
    if |s| < 2 then []
    else if |s| == 2 then [Byte0(s[0], s[1])]
    else if |s| == 3 then [Byte0(s[0], s[1]), Byte1(s[1], s[2])]
    else [Byte0(s[0], s[1]), Byte1(s[1], s[2]), Byte2(s[2], s[3])] + BytesOf(s[4..])
  }

  predicate InAlphabet(text: Text) {
    forall i | 0 <= i < |text| :: SextetOf(text[i]).Some?
  }

  function ForgivingDecode(text: Text): Option<seq<Byte>> {
    var bare := WithoutPadding(WithoutSpace(text));
    if |bare| % 4 == 1 || !InAlphabet(bare) then None
    else Some(BytesOf(seq(|bare|, i requires 0 <= i < |bare| => SextetOf(bare[i]).value)))
  }

  // ------------------------------------------------------------ slices

  lemma SextetsStep(bytes: seq<Byte>)
    requires |bytes| >= 3
    ensures Sextets(bytes) == Group(bytes) + Sextets(bytes[3..])
  {
  }

  lemma {:induction false} SextetsAppend(x: seq<Byte>, y: seq<Byte>)
    requires |x| % 3 == 0
    ensures Sextets(x + y) == Sextets(x) + Sextets(y)
    decreases |x|
  {
    if x == [] {
      assert x + y == y;
    } else {
      hide Sextets;
      SextetsAppend(x[3..], y);
      SextetsStep(x);
      SextetsStep(x + y);
      assert (x + y)[3..] == x[3..] + y && Group(x + y) == Group(x);
      hide Group;
    }
  }

  lemma CharsAppend(s: seq<Sextet>, t: seq<Sextet>)
    ensures Chars(s + t) == Chars(s) + Chars(t)
  {
  }

  lemma PaddingAppend(x: seq<Byte>, y: seq<Byte>)
    requires |x| % 3 == 0
    ensures Padding(x) == [] && Padding(x + y) == Padding(y)
  {
    assert (|x| + |y|) % 3 == |y| % 3;
  }

  /** Whole groups of three bytes encode by themselves. */
  lemma EncodeAppend(x: seq<Byte>, y: seq<Byte>)
    requires |x| % 3 == 0
    ensures Encode(x + y) == Encode(x) + Encode(y)
  {
    hide Sextets, Chars, Padding;
    SextetsAppend(x, y);
    CharsAppend(Sextets(x), Sextets(y));
    PaddingAppend(x, y);
    Reassociated(Chars(Sextets(x)), Chars(Sextets(y)), Padding(y));
  }

  lemma Reassociated(a: Text, b: Text, c: Text)
    ensures a + b + c == (a + []) + (b + c)
  {
  }

  lemma EncodeNothing()
    ensures Encode([]) == []
  {
  }

  /** Encoding slice by slice gives the encoding of the whole. */
  method EncodeInSlices(bytes: seq<Byte>) returns (text: Text)
    ensures text == Encode(bytes)
  {
    hide Encode;
    text := [];
    var offset := 0;
    assert Encode(bytes[..0]) == [] by {
      EncodeNothing();
      assert bytes[..0] == [];
    }
    while offset < |bytes|
      invariant offset % 3 == 0 || offset >= |bytes|
      invariant text == Encode(bytes[..Min(offset, |bytes|)])
    {
      var end := Min(offset + SLICE, |bytes|);
      EncodeAppend(bytes[..offset], bytes[offset..end]);
      assert bytes[..offset] + bytes[offset..end] == bytes[..end];
      text := text + Encode(bytes[offset..end]);
      offset := offset + SLICE;
    }
    assert bytes[..|bytes|] == bytes;
  }

  // ------------------------------------------------------------ round trip

  lemma GroupRoundTrip(x: Byte, y: Byte, z: Byte)
    ensures Byte0(Sextet0(x), Sextet1(x, y)) == x
    ensures Byte1(Sextet1(x, y), Sextet2(y, z)) == y
    ensures Byte2(Sextet2(y, z), Sextet3(z)) == z
  {
  }

  lemma {:induction false} BytesOfSextets(bytes: seq<Byte>)
    ensures BytesOf(Sextets(bytes)) == bytes
    decreases |bytes|
  {
    hide Sextet0, Sextet1, Sextet2, Sextet3, Byte0, Byte1, Byte2;
    if |bytes| == 1 {
      GroupRoundTrip(bytes[0], 0, 0);
    } else if |bytes| == 2 {
      GroupRoundTrip(bytes[0], bytes[1], 0);
    } else if |bytes| >= 3 {
      BytesOfSextets(bytes[3..]);
      GroupRoundTrip(bytes[0], bytes[1], bytes[2]);
      assert Sextets(bytes)[4..] == Sextets(bytes[3..]);
      assert bytes == [bytes[0], bytes[1], bytes[2]] + bytes[3..];
    }
  }

  lemma {:induction false} SextetsCount(bytes: seq<Byte>, groups: nat, rest: nat)
    requires |bytes| == 3 * groups + rest && rest < 3
    ensures |Sextets(bytes)| == 4 * groups + if rest == 0 then 0 else rest + 1
    decreases |bytes|
  {
    hide Sextet0, Sextet1, Sextet2, Sextet3;
    if |bytes| >= 3 {
      SextetsCount(bytes[3..], groups - 1, rest);
    }
  }

  lemma CharRoundTrip(v: Sextet)
    ensures SextetOf(CharOf(v)) == Some(v) && !IsSpace(CharOf(v)) && CharOf(v) != PAD
  {
  }

  lemma {:induction false} NoSpace(text: Text)
    requires forall i | 0 <= i < |text| :: !IsSpace(text[i])
    ensures WithoutSpace(text) == text
  {
    if text != [] {
      NoSpace(text[1..]);
      assert text == [text[0]] + text[1..];
    }
  }

  lemma CharsAre(sextets: seq<Sextet>)
    ensures InAlphabet(Chars(sextets))
    ensures forall i | 0 <= i < |sextets| :: SextetOf(Chars(sextets)[i]) == Some(sextets[i])
    ensures forall i | 0 <= i < |sextets| :: !IsSpace(Chars(sextets)[i]) && Chars(sextets)[i] != PAD
  {
    forall i | 0 <= i < |sextets|
      ensures SextetOf(Chars(sextets)[i]) == Some(sextets[i]) && !IsSpace(Chars(sextets)[i]) && Chars(sextets)[i] != PAD
    {
      CharRoundTrip(sextets[i]);
    }
  }

  lemma PaddingDropped(chars: Text, padding: Text, groups: nat, rest: nat)
    requires rest < 3 && |chars| == 4 * groups + if rest == 0 then 0 else rest + 1
    requires padding == if rest == 1 then [PAD, PAD] else if rest == 2 then [PAD] else []
    requires chars != [] ==> chars[|chars| - 1] != PAD
    ensures WithoutPadding(chars + padding) == chars && |chars| % 4 != 1
  {
    var text := chars + padding;
    assert |text| % 4 == 0;
    assert text[..|chars|] == chars;
    assert chars != [] ==> text[|chars| - 1] == chars[|chars| - 1];
  }

  lemma EncodingHasNoSpace(bytes: seq<Byte>)
    ensures forall i | 0 <= i < |Encode(bytes)| :: !IsSpace(Encode(bytes)[i])
  {
    CharsAre(Sextets(bytes));
    hide Sextets;
  }

  lemma LastChar(bytes: seq<Byte>)
    ensures var chars := Chars(Sextets(bytes));
      |chars| == |Sextets(bytes)| && (chars != [] ==> chars[|chars| - 1] != PAD)
  {
    CharsAre(Sextets(bytes));
    hide Sextets;
  }

  lemma Groups(bytes: seq<Byte>) returns (groups: nat, rest: nat)
    ensures |bytes| == 3 * groups + rest && rest < 3
    ensures Padding(bytes) == if rest == 1 then [PAD, PAD] else if rest == 2 then [PAD] else []
    ensures Encode(bytes) == Chars(Sextets(bytes)) + Padding(bytes)
  {
    groups, rest := |bytes| / 3, |bytes| % 3;
  }

  lemma PaddingGoes(bytes: seq<Byte>)
    ensures WithoutPadding(WithoutSpace(Encode(bytes))) == Chars(Sextets(bytes))
    ensures |Chars(Sextets(bytes))| % 4 != 1
  {
    hide *;
    EncodingHasNoSpace(bytes);
    NoSpace(Encode(bytes));
    LastChar(bytes);
    var groups, rest := Groups(bytes);
    SextetsCount(bytes, groups, rest);
    PaddingDropped(Chars(Sextets(bytes)), Padding(bytes), groups, rest);
  }

  /** Decoding gives back what was encoded. */
  lemma DecodeInvertsEncode(bytes: seq<Byte>)
    ensures ForgivingDecode(Encode(bytes)) == Some(bytes)
  {
    PaddingGoes(bytes);
    CharsAre(Sextets(bytes));
    BytesOfSextets(bytes);
    hide Sextets, BytesOf, WithoutPadding, WithoutSpace;
    var bare := Chars(Sextets(bytes));
    assert seq(|bare|, i requires 0 <= i < |bare| => SextetOf(bare[i]).value) == Sextets(bytes);
  }

  // ------------------------------------------------------------ the alphabet and the bits

  const UPPER: string := "ABCDEFGHIJKLMNOPQRSTUVWXYZ"
  const LOWER: string := "abcdefghijklmnopqrstuvwxyz"
  const ALPHABET: string := UPPER + LOWER + "0123456789" + "+/"

  lemma UpperIs(v: nat)
    requires v < 26
    ensures |UPPER| == 26 && UPPER[v] as int == 65 + v
  {
  }

  lemma LowerIs(v: nat)
    requires v < 26
    ensures |LOWER| == 26 && LOWER[v] as int == 97 + v
  {
  }

  lemma DigitIs(v: nat)
    requires v < 10
    ensures "0123456789"[v] as int == 48 + v
  {
  }

  lemma AlphabetAt(v: Sextet)
    ensures |ALPHABET| == 64 && CharOf(v) == ALPHABET[v] as int
  {
    UpperIs(if v < 26 then v else 0);
    LowerIs(if 26 <= v < 52 then v - 26 else 0);
    DigitIs(if 52 <= v < 62 then v - 52 else 0);
    hide UPPER, LOWER;
    assert |"0123456789"| == 10 && |"+/"| == 2;
  }

  /** The symbols are those of the alphabet, in its order, and no others. */
  lemma AlphabetIs(c: Unit, v: Sextet)
    ensures |ALPHABET| == 64 && CharOf(v) == ALPHABET[v] as int
    ensures SextetOf(c) == Some(v) <==> c == ALPHABET[v] as int
  {
    AlphabetAt(v);
    hide ALPHABET;
  }

  /** The digits of `n` in base 64, most significant first. */
  function Digits64(n: nat, count: nat): (d: seq<Sextet>)
    ensures |d| == count
  {
    if count == 0 then [] else Digits64(n / 64, count - 1) + [n % 64]
  }

  /** The number that the bytes are in base 256. */
  function Number256(bytes: seq<Byte>): nat {
    if bytes == [] then 0 else Number256(bytes[..|bytes| - 1]) * 256 + bytes[|bytes| - 1]
  }

  lemma NumberOfBytes(a: Byte, b: Byte, c: Byte)
    ensures Number256([a]) == a && Number256([a, b]) == a * 256 + b && Number256([a, b, c]) == (a * 256 + b) * 256 + c
  {
    assert [a][..0] == [] && [a, b][..1] == [a] && [a, b, c][..2] == [a, b];
  }

  lemma TwoDigits(n: nat)
    ensures Digits64(n, 2) == [n / 64 % 64, n % 64]
  {
    assert Digits64(n / 64, 1) == Digits64(n / 64 / 64, 0) + [n / 64 % 64];
    assert Digits64(n / 64 / 64, 0) == [];
  }

  lemma MoreDigits(n: nat, count: nat)
    ensures Digits64(n, count + 1) == Digits64(n / 64, count) + [n % 64]
  {
  }

  lemma ThreeBytes(a: Byte, b: Byte, c: Byte)
    ensures
      var n := (a * 256 + b) * 256 + c;
      && n % 64 == c % 64 && n / 64 % 64 == b % 16 * 4 + c / 64
      && n / 64 / 64 % 64 == a % 4 * 16 + b / 16 && n / 64 / 64 / 64 % 64 == a / 4
  {
    var n := (a * 256 + b) * 256 + c;
    assert n / 64 == a * 1024 + b * 4 + c / 64;
    assert n / 64 / 64 == a * 16 + b / 16;
    assert n / 64 / 64 / 64 == a / 4;
  }

  lemma TwoBytes(a: Byte, b: Byte)
    ensures
      var n := (a * 256 + b) * 4;
      n % 64 == b % 16 * 4 && n / 64 % 64 == a % 4 * 16 + b / 16 && n / 64 / 64 % 64 == a / 4
  {
    var n := (a * 256 + b) * 4;
    assert n / 64 == a * 16 + b / 16;
  }

  lemma ThreeByteGroup(a: Byte, b: Byte, c: Byte)
    ensures Sextets([a, b, c]) == Digits64(Number256([a, b, c]), 4)
  {
    var n := (a * 256 + b) * 256 + c;
    assert Sextets([a, b, c]) == Group([a, b, c]) + Sextets([]) == Group([a, b, c]);
    hide Digits64, Number256, Sextets;
    NumberOfBytes(a, b, c);
    MoreDigits(n, 3);
    MoreDigits(n / 64, 2);
    TwoDigits(n / 64 / 64);
    ThreeBytes(a, b, c);
  }

  lemma TwoByteGroup(a: Byte, b: Byte)
    ensures Sextets([a, b]) == Digits64(Number256([a, b]) * 4, 3)
  {
    var n := (a * 256 + b) * 4;
    assert Sextets([a, b]) == [Sextet0(a), Sextet1(a, b), Sextet2(b, 0)];
    hide Digits64, Number256, Sextets;
    NumberOfBytes(a, b, 0);
    MoreDigits(n, 2);
    TwoDigits(n / 64);
    TwoBytes(a, b);
  }

  lemma OneByteGroup(a: Byte)
    ensures Sextets([a]) == Digits64(Number256([a]) * 16, 2)
  {
    assert Sextets([a]) == [Sextet0(a), Sextet1(a, 0)];
    hide Digits64, Number256, Sextets;
    NumberOfBytes(a, 0, 0);
    TwoDigits(a * 16);
  }

  /** Three bytes are the four digits of their number; a short last group is shifted up to whole digits. */
  lemma GroupsAreDigits(bytes: seq<Byte>)
    requires 1 <= |bytes| <= 3
    ensures |bytes| == 3 ==> Sextets(bytes) == Digits64(Number256(bytes), 4)
    ensures |bytes| == 2 ==> Sextets(bytes) == Digits64(Number256(bytes) * 4, 3)
    ensures |bytes| == 1 ==> Sextets(bytes) == Digits64(Number256(bytes) * 16, 2)
  {
    hide *;
    if |bytes| == 3 {
      assert bytes == [bytes[0], bytes[1], bytes[2]];
      ThreeByteGroup(bytes[0], bytes[1], bytes[2]);
    } else if |bytes| == 2 {
      assert bytes == [bytes[0], bytes[1]];
      TwoByteGroup(bytes[0], bytes[1]);
    } else {
      assert bytes == [bytes[0]];
      OneByteGroup(bytes[0]);
    }
  }

  // ------------------------------------------------------------ only the canonical form

  method DecodeBase64(value: Text) returns (r: Option<seq<Byte>>)
    ensures r.Some? <==> exists bytes :: value == Encode(bytes)
    ensures r.Some? ==> value == Encode(r.value)
  {
    forall bytes | value == Encode(bytes)
      ensures ForgivingDecode(value) == Some(bytes)
    {
      DecodeInvertsEncode(bytes);
    }
    var decoded := ForgivingDecode(value);
    if decoded.None? {
      return None;
    }
    var canonical := EncodeInSlices(decoded.value);
    return if canonical == value then decoded else None;
  }

  /** No two byte strings share a canonical text, so the accepted text determines the bytes. */
  lemma EncodeIsInjective(x: seq<Byte>, y: seq<Byte>)
    ensures Encode(x) == Encode(y) <==> x == y
  {
    DecodeInvertsEncode(x);
    DecodeInvertsEncode(y);
  }

  // ------------------------------------------------------------ texts of the right shape

  predicate IsSymbol(b: Byte) {
    SextetOf(b).Some?
  }

  /** Groups of four symbols; the last may be two symbols and two padding characters, or three and one. */
  function ShapeRegex(): Regex {
    Then(Star(Repeat(Class(IsSymbol), 4)), LastGroup())
  }

  function LastGroup(): Regex {
    Optional(Or(Padded(2, 2), Padded(3, 1)))
  }

  function Padded(symbols: nat, pads: nat): Regex {
    Then(Repeat(Class(IsSymbol), symbols), After(Pads(pads), Regex.Empty))
  }

  function Pads(count: nat): seq<Byte> {
    seq(count, i => 61)
  }

  /** Symbols and then `pads` padding characters, in groups of four. */
  predicate Shaped(text: seq<Byte>, pads: nat) {
    && pads <= 2 && pads <= |text| && |text| % 4 == 0
    && text[|text| - pads..] == Pads(pads)
    && forall i | 0 <= i < |text| - pads :: IsSymbol(text[i])
  }

  lemma {:induction false} GroupsMatch(s: seq<Byte>)
    ensures Matches(Star(Repeat(Class(IsSymbol), 4)), s) <==> |s| % 4 == 0 && forall b | b in s :: IsSymbol(b)
    decreases |s|
  {
    hide Matches, IsSymbol;
    var group := Repeat(Class(IsSymbol), 4);
    if s == [] {
      EmptyMatches(group);
    } else {
      if Matches(Star(group), s) {
        var x, y := SplitStar(group, s);
        RepeatClass(IsSymbol, 4, x);
        GroupsMatch(y);
      }
      if |s| % 4 == 0 && forall b | b in s :: IsSymbol(b) {
        RepeatClass(IsSymbol, 4, s[..4]);
        GroupsMatch(s[4..]);
        MatchStar(group, s[..4], s[4..]);
        assert s == s[..4] + s[4..];
      }
    }
  }

  lemma EmptyMatches(r: Regex)
    ensures Matches(Star(r), [])
  {
  }

  /** Symbols followed by exactly this padding. */
  lemma PaddedMatches(symbols: nat, pads: nat, s: seq<Byte>)
    ensures Matches(Padded(symbols, pads), s) <==>
      |s| == symbols + pads && s[symbols..] == Pads(pads) && forall i | 0 <= i < symbols :: IsSymbol(s[i])
  {
    hide Matches, IsSymbol;
    var first, second := Repeat(Class(IsSymbol), symbols), After(Pads(pads), Regex.Empty);
    if Matches(Then(first, second), s) {
      var x, y := SplitThen(first, second, s);
      RepeatClass(IsSymbol, symbols, x);
      PadsMatch(pads, y);
      assert forall i | 0 <= i < symbols :: s[i] == x[i] && x[i] in x;
    }
    if |s| == symbols + pads && s[symbols..] == Pads(pads) && forall i | 0 <= i < symbols :: IsSymbol(s[i]) {
      RepeatClass(IsSymbol, symbols, s[..symbols]);
      PadsMatch(pads, s[symbols..]);
      MatchThen(first, second, s[..symbols], s[symbols..]);
      assert s == s[..symbols] + s[symbols..];
    }
  }

  lemma PadsMatch(pads: nat, s: seq<Byte>)
    ensures Matches(After(Pads(pads), Regex.Empty), s) <==> s == Pads(pads)
  {
    MatchesAfter(Pads(pads), Regex.Empty, s);
  }

  /** How many padding characters a text ends in, two at most. */
  function PadsOf(text: seq<Byte>): nat {
    var n := |text|;
    if n == 0 || text[n - 1] != 61 then 0 else if n == 1 || text[n - 2] != 61 then 1 else 2
  }

  lemma ShapedPads(text: seq<Byte>, pads: nat)
    requires Shaped(text, pads)
    ensures pads == PadsOf(text) && (pads > 0 ==> |text| >= 4)
  {
    var n, tail := |text|, text[|text| - pads..];
    assert !IsSymbol(61);
    assert pads > 0 ==> text[n - 1] == tail[pads - 1] == 61;
    assert pads > 1 ==> text[n - 2] == tail[pads - 2] == 61;
  }

  lemma LastGroupMatches(y: seq<Byte>)
    ensures Matches(LastGroup(), y) <==> y == [] || (|y| == 4 && (Shaped(y, 1) || Shaped(y, 2)))
  {
    assert Matches(LastGroup(), y) <==> y == [] || Matches(Padded(2, 2), y) || Matches(Padded(3, 1), y);
    hide Matches, IsSymbol;
    PaddedMatches(2, 2, y);
    PaddedMatches(3, 1, y);
  }

  lemma ShapeOfParts(x: seq<Byte>, y: seq<Byte>, pads: nat)
    requires |x| % 4 == 0 && forall b | b in x :: IsSymbol(b)
    requires Shaped(y, pads)
    ensures Shaped(x + y, pads)
  {
    hide IsSymbol;
    var s := x + y;
    assert s[|s| - pads..] == y[|y| - pads..];
    assert forall i | 0 <= i < |x| :: s[i] == x[i] && x[i] in x;
    assert forall i | |x| <= i < |s| :: s[i] == y[i - |x|];
  }

  lemma ShapeOfMatch(s: seq<Byte>)
    requires Matches(ShapeRegex(), s)
    ensures Shaped(s, PadsOf(s))
  {
    hide Matches, IsSymbol, Shaped, PadsOf, LastGroup;
    var x, y := SplitThen(Star(Repeat(Class(IsSymbol), 4)), LastGroup(), s);
    GroupsMatch(x);
    LastGroupMatches(y);
    NothingIsShaped();
    var pads := if y == [] then 0 else if Shaped(y, 1) then 1 else 2;
    ShapeOfParts(x, y, pads);
    ShapedPads(s, pads);
  }

  lemma NothingIsShaped()
    ensures Shaped([], 0)
  {
  }

  lemma SymbolsAreShaped(s: seq<Byte>)
    ensures Shaped(s, 0) <==> |s| % 4 == 0 && forall b | b in s :: IsSymbol(b)
  {
    hide IsSymbol;
    assert s[|s|..] == Pads(0);
    assert forall i | 0 <= i < |s| :: s[i] in s;
  }

  lemma PartsOfShape(s: seq<Byte>, pads: nat)
    requires Shaped(s, pads) && pads > 0
    ensures |s| >= 4 && Shaped(s[..|s| - 4], 0) && Shaped(s[|s| - 4..], pads)
  {
    ShapedPads(s, pads);
    hide IsSymbol;
    var x, y := s[..|s| - 4], s[|s| - 4..];
    assert y[4 - pads..] == s[|s| - pads..];
    assert x[|x|..] == Pads(0);
    assert forall i | 0 <= i < 4 :: y[i] == s[|s| - 4 + i];
  }

  lemma MatchOfShape(s: seq<Byte>, pads: nat)
    requires Shaped(s, pads)
    ensures Matches(ShapeRegex(), s)
  {
    var x, y := s, [];
    if pads > 0 {
      PartsOfShape(s, pads);
      x, y := s[..|s| - 4], s[|s| - 4..];
    }
    assert x + y == s && (y == [] || (|y| == 4 && pads in {1, 2}));
    hide Matches, IsSymbol, Shaped, LastGroup;
    SymbolsAreShaped(x);
    GroupsMatch(x);
    LastGroupMatches(y);
    MatchThen(Star(Repeat(Class(IsSymbol), 4)), LastGroup(), x, y);
  }

  /** The bits of the last symbol that no byte takes: four before two padding characters, two before one. */
  predicate LeftoverBitsAreZero(text: seq<Byte>) {
    var n, pads := |text|, PadsOf(text);
    pads == 0 || n <= pads || SextetOf(text[n - pads - 1]).None? ||
      SextetOf(text[n - pads - 1]).value % (if pads == 1 then 4 else 16) == 0
  }

  /** Sextets whose number and last value an encoding can have. */
  predicate Encodable(v: seq<Sextet>) {
    match |v| % 4
    case 0 => true
    case 2 => v[|v| - 1] % 16 == 0
    case 3 => v[|v| - 1] % 4 == 0
    case _ => false
  }

  lemma SextetsRoundTrip(a: Sextet, b: Sextet, c: Sextet, d: Sextet)
    ensures Sextet0(Byte0(a, b)) == a
    ensures Sextet1(Byte0(a, b), Byte1(b, c)) == b
    ensures Sextet2(Byte1(b, c), Byte2(c, d)) == c
    ensures Sextet3(Byte2(c, d)) == d
    ensures b % 16 == 0 ==> Sextet1(Byte0(a, b), 0) == b
    ensures c % 4 == 0 ==> Sextet2(Byte1(b, c), 0) == c
  {
  }

  lemma {:induction false} SextetsOfBytes(v: seq<Sextet>)
    requires Encodable(v)
    ensures Sextets(BytesOf(v)) == v
    ensures |BytesOf(v)| % 3 == if |v| % 4 == 0 then 0 else |v| % 4 - 1
    decreases |v|
  {
    hide Sextet0, Sextet1, Sextet2, Sextet3, Byte0, Byte1, Byte2;
    if |v| == 2 {
      SextetsRoundTrip(v[0], v[1], 0, 0);
    } else if |v| == 3 {
      SextetsRoundTrip(v[0], v[1], v[2], 0);
    } else if |v| >= 4 {
      SextetsOfBytes(v[4..]);
      FourOfThree(v);
    }
  }

  lemma FourOfThree(v: seq<Sextet>)
    requires |v| >= 4 && Sextets(BytesOf(v[4..])) == v[4..]
    ensures Sextets(BytesOf(v)) == v && |BytesOf(v)| == 3 + |BytesOf(v[4..])|
  {
    var bytes, rest := BytesOf(v), BytesOf(v[4..]);
    assert bytes == [Byte0(v[0], v[1]), Byte1(v[1], v[2]), Byte2(v[2], v[3])] + rest;
    hide BytesOf, Sextets, Sextet0, Sextet1, Sextet2, Sextet3, Byte0, Byte1, Byte2;
    SextetsStep(bytes);
    assert bytes[3..] == rest;
    SextetsRoundTrip(v[0], v[1], v[2], v[3]);
    assert v == [v[0], v[1], v[2], v[3]] + v[4..];
  }

  lemma {:induction false} SextetsAreEncodable(bytes: seq<Byte>)
    ensures Encodable(Sextets(bytes))
    decreases |bytes|
  {
    if |bytes| >= 3 {
      SextetsAreEncodable(bytes[3..]);
    }
  }

  function SextetAt(b: Byte): Sextet
    requires IsSymbol(b)
  {
    SextetOf(b).value
  }

  function SextetsOf(text: seq<Byte>): (v: seq<Sextet>)
    requires forall i | 0 <= i < |text| :: IsSymbol(text[i])
    ensures |v| == |text|
  {
    seq(|text|, i requires 0 <= i < |text| && IsSymbol(text[i]) => SextetAt(text[i]))
  }

  lemma SymbolRoundTrip(b: Byte)
    requires IsSymbol(b)
    ensures CharOf(SextetOf(b).value) == b && b != PAD
  {
  }

  /** The symbols stand for sextets that could be encoded exactly when the leftover bits are zero. */
  lemma EncodableExactly(text: seq<Byte>)
    requires Shaped(text, PadsOf(text))
    ensures Encodable(SextetsOf(text[..|text| - PadsOf(text)])) <==> LeftoverBitsAreZero(text)
  {
    ShapedPads(text, PadsOf(text));
    var n := |text| - PadsOf(text);
    assert n > 0 ==> IsSymbol(text[n - 1]) && text[..n][n - 1] == text[n - 1];
    hide SextetOf;
  }

  lemma CharsOfSextets(text: seq<Byte>)
    requires forall i | 0 <= i < |text| :: IsSymbol(text[i])
    ensures Chars(SextetsOf(text)) == text
  {
    forall i | 0 <= i < |text|
      ensures Chars(SextetsOf(text))[i] == text[i]
    {
      SymbolRoundTrip(text[i]);
    }
  }

  lemma PaddingOf(bytes: seq<Byte>, v: seq<Sextet>, pads: nat)
    requires |bytes| % 3 == if |v| % 4 == 0 then 0 else |v| % 4 - 1
    requires (|v| + pads) % 4 == 0 && pads <= 2
    ensures Padding(bytes) == Pads(pads)
  {
  }

  lemma AcceptedIfZero(text: seq<Byte>) returns (bytes: seq<Byte>)
    requires Shaped(text, PadsOf(text)) && LeftoverBitsAreZero(text)
    ensures text == Encode(bytes)
  {
    EncodableExactly(text);
    var pads := PadsOf(text);
    var symbols := text[..|text| - pads];
    assert text == symbols + Pads(pads);
    assert |text| % 4 == 0 && pads <= 2 && forall i | 0 <= i < |symbols| :: IsSymbol(symbols[i]);
    hide *;
    var v := SextetsOf(symbols);
    assert |v| == |symbols|;
    bytes := BytesOf(v);
    CharsOfSextets(symbols);
    SextetsOfBytes(v);
    PaddingOf(bytes, v, pads);
    EncodeIs(bytes);
  }

  lemma EncodeIs(bytes: seq<Byte>)
    ensures Encode(bytes) == Chars(Sextets(bytes)) + Padding(bytes)
  {
  }

  lemma ZeroIfAccepted(text: seq<Byte>, bytes: seq<Byte>)
    requires Shaped(text, PadsOf(text)) && text == Encode(bytes)
    ensures LeftoverBitsAreZero(text)
  {
    EncodableExactly(text);
    SextetsAreEncodable(bytes);
    SymbolsOfEncoding(text, bytes);
  }

  lemma SymbolsOfEncoding(text: seq<Byte>, bytes: seq<Byte>)
    requires Shaped(text, PadsOf(text)) && text == Encode(bytes)
    ensures SextetsOf(text[..|text| - PadsOf(text)]) == Sextets(bytes)
  {
    var chars, padding := Chars(Sextets(bytes)), Padding(bytes);
    CharsAre(Sextets(bytes));
    hide Sextets;
    var n := |text|;
    assert forall i | 0 <= i < |chars| :: text[i] == chars[i];
    assert forall i | |chars| <= i < n :: text[i] == padding[i - |chars|] == 61;
    assert |chars| == n - PadsOf(text);
  }

  /** A text of this shape is accepted exactly when its leftover bits are zero. */
  lemma MatchedIsAcceptedExactly(text: seq<Byte>)
    requires Matches(ShapeRegex(), text)
    ensures (exists bytes :: text == Encode(bytes)) <==> LeftoverBitsAreZero(text)
  {
    ShapeOfMatch(text);
    hide *;
    if LeftoverBitsAreZero(text) {
      var bytes := AcceptedIfZero(text);
    }
    if bytes :| text == Encode(bytes) {
      ZeroIfAccepted(text, bytes);
    }
  }

  /** Every accepted text has the shape. */
  lemma EncodingHasShape(text: seq<Byte>, bytes: seq<Byte>)
    requires text == Encode(bytes)
    ensures Matches(ShapeRegex(), text)
  {
    hide Sextets, Matches;
    EncodingCounts(bytes);
    CharsAre(Sextets(bytes));
    CharsAreShaped(Chars(Sextets(bytes)), Padding(bytes));
    MatchOfShape(text, |Padding(bytes)|);
  }

  lemma EncodingCounts(bytes: seq<Byte>)
    ensures (|Chars(Sextets(bytes))| + |Padding(bytes)|) % 4 == 0
    ensures |Padding(bytes)| <= 2 && Padding(bytes) == Pads(|Padding(bytes)|)
  {
    var groups, rest := Groups(bytes);
    SextetsCount(bytes, groups, rest);
    hide Sextets;
  }

  lemma CharsAreShaped(chars: Text, padding: Text)
    requires InAlphabet(chars) && (|chars| + |padding|) % 4 == 0
    requires |padding| <= 2 && padding == Pads(|padding|)
    ensures Shaped(chars + padding, |padding|)
  {
    var text := chars + padding;
    assert text[|text| - |padding|..] == padding;
    assert forall i | 0 <= i < |chars| :: text[i] == chars[i] && IsSymbol(text[i]);
  }
}
