/** The grammar of member paths. */
module MemberPaths {
  // Member paths, segments, the ASCII case mapping and digests, stated by their alphabets.

  import opened Bytes
  import opened Alphabets
  import opened PayloadTree

  /** Letters, digits, period, underscore and hyphen. */
  lemma SegmentsExactly(b: Byte)
    ensures IsSegmentChar(b) <==> b in LOWERS || b in UPPERS || b in DIGITS || b in Ascii("._-")
  {
    LettersAndDigits(b);
    assert Ascii("._-") == [46, 95, 45];
    hide LOWERS, UPPERS, DIGITS;
  }

  /** Only capital letters have another lower case, the letter of the same place. */
  lemma LowerExactly(b: Byte, i: nat)
    ensures i < 26 ==> LowerByte(UPPERS[i]) == LOWERS[i]
    ensures b !in UPPERS ==> LowerByte(b) == b
  {
    LettersAndDigits(b);
    if i < 26 {
      UppersAre(i);
      LowersAre(i);
    }
    hide LOWERS, UPPERS;
  }

  lemma DigestsExactly(value: seq<Byte>)
    ensures IsLowerHexSha256(value) <==> |value| == 64 && forall b | b in value :: b in DIGITS || b in LOWERS[..6]
  {
    LowersAre(0);
    hide LOWERS, DIGITS;
    forall b: Byte
      ensures 48 <= b <= 57 || 97 <= b <= 102 <==> b in DIGITS || b in LOWERS[..6]
    {
      LettersAndDigits(b);
    }
  }

  lemma {:induction false} UnderJoins(prefix: Name, rest: seq<Byte>)
    ensures Under(prefix, Split(rest, SLASH)) == prefix + [SLASH] + rest
    decreases |rest|
  {
    var piece, more := FirstPiece(rest, SLASH);
    if |Split(rest, SLASH)| == 1 {
      assert Split(rest, SLASH) == [piece];
      assert Under(prefix, [piece]) == Under(Child(prefix, piece), [piece][1..]);
      var none: seq<Name> := [piece][1..];
      assert none == [];
    } else {
      assert Split(rest, SLASH) == [piece] + Split(more, SLASH);
      UnderJoins(Child(prefix, piece), more);
      assert Child(prefix, piece) + [SLASH] + more == prefix + [SLASH] + rest;
    }
  }

  /** Member paths are `dist` and one to fifteen segments after it, in at most 256 bytes. */
  lemma MemberPathExactly(path: seq<Byte>)
    ensures IsMemberPath(path) <==> |path| <= 256 && exists parts :: IsUnderDist(path, parts)
  {
    if IsMemberPath(path) {
      var parts := PartsOf(path);
    }
    if |path| <= 256 && exists parts :: IsUnderDist(path, parts) {
      var parts :| IsUnderDist(path, parts);
      UnderIsMember(path, parts);
    }
  }

  predicate IsUnderDist(path: seq<Byte>, parts: seq<Name>) {
    1 <= |parts| <= 15 && path == Under(Ascii("dist"), parts) && forall part | part in parts :: IsSegment(part)
  }

  lemma PartsOf(path: seq<Byte>) returns (parts: seq<Name>)
    requires IsMemberPath(path)
    ensures IsUnderDist(path, parts)
  {
    var dist := Ascii("dist");
    assert Ascii("dist/") == dist + [SLASH] && SLASH !in dist;
    var rest := path[5..];
    assert path == dist + [SLASH] + rest;
    parts := Split(rest, SLASH);
    SplitPiece(dist, SLASH, rest);
    UnderJoins(dist, rest);
    hide Split, IsSegment, Ascii, Under;
    assert forall part | part in parts :: part in Split(path, SLASH);
  }

  lemma UnderIsMember(path: seq<Byte>, parts: seq<Name>)
    requires IsUnderDist(path, parts) && |path| <= 256
    ensures IsMemberPath(path)
  {
    var dist := Ascii("dist");
    assert dist == [100, 105, 115, 116] && SLASH !in dist && IsSegment(dist);
    assert Ascii("dist/") == dist + [SLASH];
    forall part | part in parts
      ensures SLASH !in part && BACKSLASH !in part && part != []
    {
      SegmentHasNoSlash(part);
    }
    SplitUnder(dist, parts);
    SplitPiece(dist, SLASH, []);
    UnderExtends(dist, parts);
    hide Split, Ascii;
    NoBackslash(dist, parts);
  }

  lemma {:induction false} NoBackslash(prefix: seq<Byte>, parts: seq<Name>)
    requires BACKSLASH !in prefix && prefix != [] && prefix[|prefix| - 1] != SLASH
    requires forall part | part in parts :: IsSegment(part)
    ensures BACKSLASH !in Under(prefix, parts)
    ensures Under(prefix, parts) != [] && Under(prefix, parts)[|Under(prefix, parts)| - 1] != SLASH
    decreases |parts|
  {
    if parts != [] {
      var next := Child(prefix, parts[0]);
      SegmentHasNoSlash(parts[0]);
      assert parts[0] in parts && next[|next| - 1] == parts[0][|parts[0]| - 1];
      NoBackslash(next, parts[1..]);
    }
  }
}
