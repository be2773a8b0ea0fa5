/** What the preflight accepts. */
module TarFormat {
  /*
   The format the preflight accepts, stated on the bytes alone: a stream is accepted exactly when it is a
   sequence of members, each a header, a body and padding to a whole block, followed by zeros, and each
   header declares its member canonically. The parser's own functions are not used here.
  */

  import opened Options
  import opened Bytes
  import opened Sorting
  import opened TarReader
  import opened TarWriter

  // ------------------------------------------------------------ fields

  predicate All(bytes: seq<Byte>, allowed: set<Byte>) {
    forall i | 0 <= i < |bytes| :: bytes[i] in allowed
  }

  predicate Octal(digits: seq<Byte>) {
    forall i | 0 <= i < |digits| :: 48 <= digits[i] <= 55
  }

  /** The number that octal digits stand for, each digit weighted by its place. */
  function Places(digits: seq<Byte>): nat
    requires Octal(digits)
  {
    if digits == [] then 0 else (digits[0] - 48) * Power8(|digits| - 1) + Places(digits[1..])
  }

  /** Spaces, octal digits, then NULs and spaces. */
  ghost predicate Spells(field: seq<Byte>, spaces: seq<Byte>, digits: seq<Byte>, tail: seq<Byte>, n: nat) {
    && field == spaces + digits + tail && All(spaces, {32}) && Octal(digits) && All(tail, {0, 32})
    && n == Places(digits)
  }

  ghost predicate NumberIs(field: seq<Byte>, n: nat) {
    exists spaces, digits, tail :: Spells(field, spaces, digits, tail, n)
  }

  /** The text up to the first NUL, or the whole field. */
  predicate TextIs(field: seq<Byte>, text: seq<Byte>) {
    text <= field && 0 !in text && (|text| < |field| ==> field[|text|] == 0)
  }

  /** The sum of the first `n` bytes of a header, those of the checksum field counted as spaces. */
  function SumTo(header: seq<Byte>, n: nat): nat
    requires n <= |header|
  {
    if n == 0 then 0
    else SumTo(header, n - 1) + if 148 <= n - 1 < 156 then 32 else header[n - 1]
  }

  // ------------------------------------------------------------ members

  /** One member as it stands in the stream. */
  datatype Piece = Piece(header: seq<Byte>, body: seq<Byte>, padding: seq<Byte>, name: seq<Byte>)

  predicate IsDirectoryFlag(flag: Byte) { flag == 53 }
  predicate IsLinkFlag(flag: Byte) { flag == 50 }
  predicate IsRegularFlag(flag: Byte) { flag == 0 || flag == 48 }

  /** The name that prefix and base give; a directory's loses its final slashes. */
  ghost predicate NameIs(prefix: seq<Byte>, base: seq<Byte>, flag: Byte, name: seq<Byte>) {
    var joined := if prefix == [] then base else prefix + [47] + base;
    && ValidUtf8(joined)
    && if IsDirectoryFlag(flag)
       then name <= joined && All(joined[|name|..], {47}) && (name != [] ==> name[|name| - 1] != 47)
       else name == joined
  }

  ghost predicate FormatOk(h: seq<Byte>)
    requires |h| == BLOCK
  {
    && h[257..262] == Ascii("ustar") && h[262..265] in {[0, 48, 48], [32, 32, 0]}
    && (forall i | 386 <= i < 483 :: h[i] == 0)
    && NumberIs(h[148..156], SumTo(h, BLOCK))
    && (IsRegularFlag(h[156]) || IsDirectoryFlag(h[156]) || IsLinkFlag(h[156]))
  }

  ghost predicate MetadataOk(h: seq<Byte>)
    requires |h| == BLOCK
  {
    && NumberIs(h[108..116], 0) && NumberIs(h[116..124], 0) && NumberIs(h[136..148], 0)
    && exists mode: nat :: NumberIs(h[100..108], mode) && (mode / 512) % 8 == 0
  }

  ghost predicate NameOk(h: seq<Byte>, name: seq<Byte>)
    requires |h| == BLOCK
  {
    && SafeName(name)
    && exists prefix, base ::
      TextIs(h[345..500], prefix) && TextIs(h[0..100], base) && NameIs(prefix, base, h[156], name)
  }

  ghost predicate LinkOk(h: seq<Byte>)
    requires |h| == BLOCK
  {
    exists link ::
      TextIs(h[157..257], link) && ValidUtf8(link) && link != [] && link[0] != 47 && forall b | b in link :: b != 92
  }

  function SizeLimit(name: seq<Byte>): nat {
    if name == MANIFEST then MAX_MANIFEST_BYTES else MAX_FILE_BYTES
  }

  /** A canonical header of a member with this name and size. */
  ghost predicate Declares(h: seq<Byte>, name: seq<Byte>, size: nat) {
    && |h| == BLOCK && FormatOk(h) && NameOk(h, name) && MetadataOk(h)
    && NumberIs(h[124..136], size)
    && (if IsRegularFlag(h[156]) then size <= SizeLimit(name) else size == 0)
    && (IsLinkFlag(h[156]) ==> LinkOk(h))
  }

  ghost predicate PieceOk(p: Piece) {
    && Declares(p.header, p.name, |p.body|)
    && |p.padding| < BLOCK && (|p.body| + |p.padding|) % BLOCK == 0
  }

  function BytesOf(pieces: seq<Piece>): seq<Byte> {
    if pieces == [] then [] else pieces[0].header + pieces[0].body + pieces[0].padding + BytesOf(pieces[1..])
  }

  function NamesOf(pieces: seq<Piece>): (names: seq<seq<Byte>>)
    ensures |names| == |pieces|
  {
    seq(|pieces|, i requires 0 <= i < |pieces| => pieces[i].name)
  }

  function TotalOf(pieces: seq<Piece>): nat {
    if pieces == [] then 0 else |pieces[0].body| + TotalOf(pieces[1..])
  }

  /** A member list that the preflight accepts. */
  ghost predicate Canonical(pieces: seq<Piece>) {
    && (forall p | p in pieces :: PieceOk(p))
    && Distinct(NamesOf(pieces)) && 0 < |pieces| <= MAX_MEMBERS && TotalOf(pieces) <= MAX_UNCOMPRESSED_BYTES
    && pieces[|pieces| - 1].name == MANIFEST
  }

  // ------------------------------------------------------------ numbers

  lemma {:induction false} TrailingGoes(raw: seq<Byte>, tail: seq<Byte>)
    requires All(tail, {0, 32})
    ensures DropTrailing(raw + tail) == DropTrailing(raw)
    decreases |tail|
  {
    if tail == [] {
      assert raw + tail == raw;
    } else {
      assert (raw + tail)[..|raw + tail| - 1] == raw + tail[..|tail| - 1];
      TrailingGoes(raw, tail[..|tail| - 1]);
    }
  }

  lemma {:induction false} LeadingGoes(spaces: seq<Byte>, raw: seq<Byte>)
    requires All(spaces, {32})
    ensures DropLeading(spaces + raw, 32) == DropLeading(raw, 32)
    decreases |spaces|
  {
    if spaces == [] {
      assert spaces + raw == raw;
    } else {
      assert (spaces + raw)[1..] == spaces[1..] + raw;
      LeadingGoes(spaces[1..], raw);
    }
  }

  lemma {:induction false} TrailingParts(raw: seq<Byte>) returns (tail: seq<Byte>)
    ensures raw == DropTrailing(raw) + tail && All(tail, {0, 32})
    decreases |raw|
  {
    if raw != [] && raw[|raw| - 1] in {0, 32} {
      tail := TrailingParts(raw[..|raw| - 1]);
      tail := tail + [raw[|raw| - 1]];
    } else {
      tail := [];
    }
  }

  lemma {:induction false} LeadingParts(raw: seq<Byte>) returns (spaces: seq<Byte>)
    ensures raw == spaces + DropLeading(raw, 32) && All(spaces, {32})
    decreases |raw|
  {
    if raw != [] && raw[0] == 32 {
      spaces := LeadingParts(raw[1..]);
      spaces := [raw[0]] + spaces;
    } else {
      spaces := [];
    }
  }

  lemma EightTimes(a: nat, b: nat)
    ensures a * (8 * b) == 8 * (a * b)
  {
  }

  lemma {:induction false} PlacesOfLast(digits: seq<Byte>)
    requires digits != [] && Octal(digits)
    ensures Octal(digits[..|digits| - 1])
    ensures Places(digits) == 8 * Places(digits[..|digits| - 1]) + (digits[|digits| - 1] - 48)
    decreases |digits|
  {
    var n := |digits| - 1;
    if n == 0 {
      assert digits[1..] == [] && digits[..0] == [];
    } else {
      PlacesOfLast(digits[1..]);
      assert digits[1..][..n - 1] == digits[..n][1..];
      var first, shorter := digits[0] - 48, digits[..n];
      EightTimes(first, Power8(n - 1));
      assert Places(shorter) == first * Power8(n - 1) + Places(shorter[1..]);
      hide Power8;
    }
  }

  lemma {:induction false} ValueIsPlaces(digits: seq<Byte>)
    requires Octal(digits)
    ensures forall b | b in digits :: IsOctal(b)
    ensures OctalValue(digits) == Places(digits)
    decreases |digits|
  {
    if digits != [] {
      PlacesOfLast(digits);
      ValueIsPlaces(digits[..|digits| - 1]);
    }
  }

  lemma SpelledParses(field: seq<Byte>, spaces: seq<Byte>, digits: seq<Byte>, tail: seq<Byte>, n: nat)
    requires Spells(field, spaces, digits, tail, n)
    ensures ParseTarNumber(field) == Ok(n)
  {
    TrailingGoes(spaces + digits, tail);
    ValueIsPlaces(digits);
    if digits == [] {
      TrailingGoes([], spaces);
      assert [] + spaces == spaces == spaces + digits;
    } else {
      assert DropTrailing(spaces + digits) == spaces + digits;
      LeadingGoes(spaces, digits);
    }
  }

  lemma ParsedIsSpelled(field: seq<Byte>)
    requires ParseTarNumber(field).Ok?
    ensures NumberIs(field, ParseTarNumber(field).value)
  {
    var tail := TrailingParts(field);
    var spaces := LeadingParts(DropTrailing(field));
    var digits := DropLeading(DropTrailing(field), 32);
    assert Octal(digits) by {
      forall i | 0 <= i < |digits|
        ensures 48 <= digits[i] <= 55
      {
        assert digits[i] in digits;
      }
    }
    ValueIsPlaces(digits);
    assert Spells(field, spaces, digits, tail, ParseTarNumber(field).value);
  }

  /** A field parses to a number exactly when it spells it. */
  lemma ParsesExactly(field: seq<Byte>, n: nat)
    ensures ParseTarNumber(field) == Ok(n) <==> NumberIs(field, n)
  {
    hide ParseTarNumber, Spells;
    if ParseTarNumber(field).Ok? {
      ParsedIsSpelled(field);
    }
    if NumberIs(field, n) {
      var spaces, digits, tail :| Spells(field, spaces, digits, tail, n);
      SpelledParses(field, spaces, digits, tail, n);
    }
  }

  lemma {:induction false} TextExactly(field: seq<Byte>, text: seq<Byte>)
    ensures UntilNul(field) == text <==> TextIs(field, text)
    decreases |field|
  {
    if field != [] && field[0] != 0 && text != [] {
      TextExactly(field[1..], text[1..]);
      assert text == [text[0]] + text[1..] && field == [field[0]] + field[1..];
    }
  }

  lemma {:induction false} SlashesGo(joined: seq<Byte>, name: seq<Byte>)
    ensures DropTrailingByte(joined, 47) == name <==>
      name <= joined && All(joined[|name|..], {47}) && (name != [] ==> name[|name| - 1] != 47)
    decreases |joined|
  {
    var n := |joined|;
    if n > 0 && joined[n - 1] == 47 {
      SlashesGo(joined[..n - 1], name);
      if name <= joined && |name| < n {
        assert joined[|name|..] == joined[..n - 1][|name|..] + [47];
      }
    }
  }

  lemma {:induction false} SumIs(h: seq<Byte>, n: nat)
    requires |h| == BLOCK && n <= BLOCK
    ensures Sum(Blanked(h)[..n]) == SumTo(h, n)
  {
    if n > 0 {
      SumIs(h, n - 1);
      assert Blanked(h)[..n][..n - 1] == Blanked(h)[..n - 1];
    }
  }

  lemma WholeSum(h: seq<Byte>)
    requires |h| == BLOCK
    ensures Sum(Blanked(h)) == SumTo(h, BLOCK)
  {
    SumIs(h, BLOCK);
    assert Blanked(h)[..BLOCK] == Blanked(h);
  }

  // ------------------------------------------------------------ one header

  lemma MagicIs(magic: seq<Byte>)
    requires |magic| == 8
    ensures magic == POSIX_MAGIC || magic == GNU_MAGIC <==>
      magic[..5] == Ascii("ustar") && magic[5..] in {[0, 48, 48], [32, 32, 0]}
  {
    assert magic == magic[..5] + magic[5..];
    assert POSIX_MAGIC == Ascii("ustar") + [0, 48, 48] && GNU_MAGIC == Ascii("ustar") + [32, 32, 0];
  }

  lemma FormatExactly(h: seq<Byte>)
    requires |h| == BLOCK
    ensures CheckFormat(h).Ok? <==> FormatOk(h)
  {
    hide ParseTarNumber, NumberIs, Sum, SumTo, Blanked;
    MagicIs(h[257..265]);
    assert h[257..265][..5] == h[257..262] && h[257..265][5..] == h[262..265];
    ParsesExactly(h[148..156], SumTo(h, BLOCK));
    WholeSum(h);
    assert (AllZero(h[386..482]) && h[482] == 0) <==> forall i | 386 <= i < 483 :: h[i] == 0 by {
      assert forall i | 386 <= i < 482 :: h[i] == h[386..482][i - 386];
    }
    hide AllZero;
  }

  lemma OneText(field: seq<Byte>)
    ensures forall t :: TextIs(field, t) <==> t == UntilNul(field)
  {
    hide *;
    forall t
      ensures TextIs(field, t) <==> t == UntilNul(field)
    {
      TextExactly(field, t);
    }
  }

  lemma NameFollows(prefix: seq<Byte>, base: seq<Byte>, flag: Byte, name: seq<Byte>)
    ensures
      var joined := prefix + (if prefix == [] then [] else [47]) + base;
      NameIs(prefix, base, flag, name) <==>
        ValidUtf8(joined) && name == if flag == 53 then DropTrailingByte(joined, 47) else joined
  {
    var joined := prefix + (if prefix == [] then [] else [47]) + base;
    SlashesGo(joined, name);
    hide ValidUtf8, DropTrailingByte, All;
    assert joined == if prefix == [] then base else prefix + [47] + base;
  }

  lemma NameExactly(h: seq<Byte>, name: seq<Byte>)
    requires |h| == BLOCK
    ensures ReadName(h) == Ok(name) <==> NameOk(h, name)
  {
    hide UntilNul, TextIs, SafeName, ValidUtf8, DropTrailingByte, NameIs;
    OneText(h[0..100]);
    OneText(h[345..500]);
    NameFollows(UntilNul(h[345..500]), UntilNul(h[0..100]), h[156], name);
  }

  lemma LinkExactly(h: seq<Byte>)
    requires |h| == BLOCK
    ensures CheckLink(h).Ok? <==> LinkOk(h)
  {
    hide UntilNul, TextIs, ValidUtf8;
    OneText(h[157..257]);
  }

  lemma MetadataExactly(h: seq<Byte>)
    requires |h| == BLOCK
    ensures
      && ParseTarNumber(h[108..116]) == Ok(0) && ParseTarNumber(h[116..124]) == Ok(0)
      && ParseTarNumber(h[136..148]) == Ok(0) && ParseTarNumber(h[100..108]).Ok?
      && (ParseTarNumber(h[100..108]).value / 512) % 8 == 0
      <==> MetadataOk(h)
  {
    hide ParseTarNumber, NumberIs;
    ParsesExactly(h[108..116], 0);
    ParsesExactly(h[116..124], 0);
    ParsesExactly(h[136..148], 0);
    forall mode: nat
      ensures ParseTarNumber(h[100..108]) == Ok(mode) <==> NumberIs(h[100..108], mode)
    {
      ParsesExactly(h[100..108], mode);
    }
  }

  /** What the members before it leave room for. */
  predicate Fits(name: seq<Byte>, bytes: nat, sc: Scan) {
    name !in sc.names && |sc.names| < MAX_MEMBERS && sc.regularBytes + bytes <= MAX_UNCOMPRESSED_BYTES
  }

  /** The checks of one header, joined. */
  lemma AllChecks(h: seq<Byte>, sc: Scan, name: seq<Byte>, size: nat)
    requires |h| == BLOCK && sc.regularBytes <= MAX_UNCOMPRESSED_BYTES
    ensures
      ReadMember(h, sc) == Ok(Member(name, size, h[156] != 53 && h[156] != 50)) <==>
        && CheckFormat(h).Ok? && ReadName(h) == Ok(name)
        && ParseTarNumber(h[108..116]) == Ok(0) && ParseTarNumber(h[116..124]) == Ok(0)
        && ParseTarNumber(h[136..148]) == Ok(0) && ParseTarNumber(h[100..108]).Ok?
        && (ParseTarNumber(h[100..108]).value / 512) % 8 == 0
        && ParseTarNumber(h[124..136]) == Ok(size)
        && (if h[156] != 53 && h[156] != 50 then size <= SizeLimit(name) else size == 0)
        && (h[156] == 50 ==> CheckLink(h).Ok?)
        && Fits(name, size, sc)
  {
    hide CheckFormat, ReadName, CheckLink, ParseTarNumber, MANIFEST;
  }

  /** A header is read as a member exactly when it declares that member and there is room for it. */
  lemma HeaderExactly(h: seq<Byte>, sc: Scan, name: seq<Byte>, size: nat)
    requires |h| == BLOCK && sc.regularBytes <= MAX_UNCOMPRESSED_BYTES
    ensures ReadMember(h, sc) == Ok(Member(name, size, h[156] != 53 && h[156] != 50)) <==>
      Declares(h, name, size) && Fits(name, size, sc)
  {
    AllChecks(h, sc, name, size);
    FormatExactly(h);
    NameExactly(h, name);
    LinkExactly(h);
    MetadataExactly(h);
    ParsesExactly(h[124..136], size);
    if FormatOk(h) {
      FlagsOfFormat(h);
    }
    hide ReadMember, CheckFormat, ReadName, CheckLink, FormatOk, NameOk, LinkOk, MetadataOk, ParseTarNumber, NumberIs;
    hide SizeLimit, Fits;
  }

  lemma FlagsOfFormat(h: seq<Byte>)
    requires |h| == BLOCK && FormatOk(h)
    ensures h[156] in {0, 48, 53, 50}
  {
    hide NumberIs;
  }

  // ------------------------------------------------------------ the whole stream

  ghost predicate Continues(pieces: seq<Piece>, sc: Scan) {
    && (forall p | p in pieces :: PieceOk(p))
    && Distinct(sc.names + NamesOf(pieces)) && |sc.names| + |pieces| <= MAX_MEMBERS
    && sc.regularBytes + TotalOf(pieces) <= MAX_UNCOMPRESSED_BYTES
  }

  /** The carried state after one member. */
  function Past(sc: Scan, p: Piece): Scan {
    sc.(names := sc.names + [p.name], manifest := if p.name == MANIFEST then Some(p.body) else sc.manifest,
        regularBytes := sc.regularBytes + |p.body|)
  }

  function PastAll(sc: Scan, pieces: seq<Piece>): Scan
    decreases |pieces|
  {
    if pieces == [] then sc else PastAll(Past(sc, pieces[0]), pieces[1..])
  }

  lemma {:induction false} PastAllIs(sc: Scan, pieces: seq<Piece>)
    ensures PastAll(sc, pieces).names == sc.names + NamesOf(pieces)
    ensures pieces != [] && pieces[|pieces| - 1].name == MANIFEST ==>
      PastAll(sc, pieces).manifest == Some(pieces[|pieces| - 1].body)
    decreases |pieces|
  {
    hide MANIFEST;
    if pieces != [] {
      PastAllIs(Past(sc, pieces[0]), pieces[1..]);
      assert pieces == [pieces[0]] + pieces[1..];
      assert NamesOf(pieces) == [pieces[0].name] + NamesOf(pieces[1..]);
    }
  }

  lemma ContinuesPast(p: Piece, rest: seq<Piece>, sc: Scan)
    ensures Continues([p] + rest, sc) <==>
      PieceOk(p) && Fits(p.name, |p.body|, sc) && Continues(rest, Past(sc, p))
  {
    var pieces := [p] + rest;
    hide PieceOk;
    assert pieces[1..] == rest;
    assert NamesOf(pieces) == [p.name] + NamesOf(rest);
    var all := sc.names + NamesOf(pieces);
    assert all == Past(sc, p).names + NamesOf(rest);
    if Distinct(all) {
      forall i | 0 <= i < |sc.names|
        ensures sc.names[i] != p.name
      {
        assert all[i] != all[|sc.names|];
      }
    }
  }

  lemma RunStep(rest: seq<Byte>, sc: Scan, m: Member)
    requires sc.zeroBlocks == 0 && |rest| >= BLOCK + m.size + Padding(m.size)
    requires !AllZero(rest[..BLOCK]) && ReadMember(rest[..BLOCK], sc) == Ok(m)
    ensures Run(rest, sc) ==
      Run(rest[BLOCK + m.size + Padding(m.size)..], Advance(sc, m, rest[BLOCK..BLOCK + m.size]))
  {
    hide ReadMember, Padding, Advance, Finish, AllZero;
  }

  lemma Slices(h: seq<Byte>, body: seq<Byte>, padding: seq<Byte>, rest: seq<Byte>)
    ensures
      var all := h + body + padding + rest;
      && all[..|h|] == h && all[|h|..|h| + |body|] == body && all[|h| + |body| + |padding|..] == rest
  {
  }

  function MemberOf(p: Piece): Member
    requires |p.header| == BLOCK
  {
    Member(p.name, |p.body|, p.header[156] != 53 && p.header[156] != 50)
  }

  lemma PieceIsRead(p: Piece, sc: Scan)
    requires PieceOk(p) && Fits(p.name, |p.body|, sc)
    ensures |p.header| == BLOCK && !AllZero(p.header) && |p.padding| == Padding(|p.body|)
    ensures ReadMember(p.header, sc) == Ok(MemberOf(p))
    ensures Advance(sc, MemberOf(p), p.body) == Past(sc, p)
  {
    hide *;
    PieceParts(p, sc);
    DeclaredIsNotZero(p.header, p.name, |p.body|);
    PaddingIs(|p.body|, |p.padding|);
    AdvanceIsPast(p, sc);
    HeaderExactly(p.header, sc, p.name, |p.body|);
    MemberIs(p);
  }

  lemma PieceParts(p: Piece, sc: Scan)
    requires PieceOk(p) && Fits(p.name, |p.body|, sc)
    ensures |p.header| == BLOCK && Declares(p.header, p.name, |p.body|) && sc.regularBytes <= MAX_UNCOMPRESSED_BYTES
    ensures |p.padding| < BLOCK && (|p.body| + |p.padding|) % BLOCK == 0
  {
    hide FormatOk, NameOk, MetadataOk, LinkOk, NumberIs;
  }

  lemma MemberIs(p: Piece)
    requires |p.header| == BLOCK
    ensures MemberOf(p) == Member(p.name, |p.body|, p.header[156] != 53 && p.header[156] != 50)
  {
  }

  lemma AdvanceIsPast(p: Piece, sc: Scan)
    requires |p.header| == BLOCK && (p.header[156] in {53, 50} ==> |p.body| == 0)
    ensures Advance(sc, MemberOf(p), p.body) == Past(sc, p)
  {
    hide MANIFEST;
  }

  /** One member at the head of the stream. */
  lemma RunPiece(p: Piece, rest: seq<Byte>, sc: Scan)
    requires PieceOk(p) && Fits(p.name, |p.body|, sc) && sc.zeroBlocks == 0
    ensures Run(p.header + p.body + p.padding + rest, sc) == Run(rest, Past(sc, p))
  {
    hide *;
    PieceIsRead(p, sc);
    MemberIs(p);
    Slices(p.header, p.body, p.padding, rest);
    RunStep(p.header + p.body + p.padding + rest, sc, MemberOf(p));
  }

  lemma DeclaredIsNotZero(h: seq<Byte>, name: seq<Byte>, size: nat)
    requires Declares(h, name, size)
    ensures !AllZero(h) && (h[156] in {53, 50} ==> size == 0)
  {
    hide NumberIs, NameOk, MetadataOk, LinkOk;
    assert h[257] == h[257..262][0] == 117;
  }

  lemma PaddingIs(size: nat, padding: nat)
    requires padding < BLOCK && (size + padding) % BLOCK == 0
    ensures padding == Padding(size)
  {
    PaddingFillsBlocks(size);
  }

  lemma {:induction false} LaidRuns(pieces: seq<Piece>, zeros: seq<Byte>, sc: Scan)
    requires Continues(pieces, sc) && sc.zeroBlocks == 0 && AllZero(zeros) && |zeros| >= 2 * BLOCK
    ensures Run(BytesOf(pieces) + zeros, sc) == Finish(PastAll(sc, pieces).(zeroBlocks := 2))
  {
    if pieces == [] {
      assert BytesOf(pieces) + zeros == zeros == Fill(2 * BLOCK + (|zeros| - 2 * BLOCK), 0);
      hide Run, Finish;
      RunEnd(|zeros| - 2 * BLOCK, sc);
    } else {
      hide PieceOk, Run, Finish, Continues;
      var p, rest := pieces[0], pieces[1..];
      assert pieces == [p] + rest;
      ContinuesPast(p, rest, sc);
      RunPiece(p, BytesOf(rest) + zeros, sc);
      LaidRuns(rest, zeros, Past(sc, p));
      assert BytesOf(pieces) + zeros == p.header + p.body + p.padding + (BytesOf(rest) + zeros);
    }
  }

  /** One member read off an accepted stream. */
  lemma HeadPiece(rest: seq<Byte>, sc: Scan) returns (p: Piece, after: seq<Byte>)
    requires sc.zeroBlocks == 0 && sc.regularBytes <= MAX_UNCOMPRESSED_BYTES
    requires Run(rest, sc).Ok? && |rest| >= BLOCK && !AllZero(rest[..BLOCK])
    ensures rest == p.header + p.body + p.padding + after && |p.header| == BLOCK
    ensures PieceOk(p) && Fits(p.name, |p.body|, sc) && Run(rest, sc) == Run(after, Past(sc, p))
  {
    hide ReadMember, AllZero, MANIFEST, Declares, Fits;
    var h := rest[..BLOCK];
    var m := ReadMember(h, sc).value;
    MemberOfHeader(h, sc);
    var end := BLOCK + m.size + Padding(m.size);
    PaddingFillsBlocks(m.size);
    p := Piece(h, rest[BLOCK..BLOCK + m.size], rest[BLOCK + m.size..end], m.name);
    after := rest[end..];
    HeaderExactly(h, sc, m.name, m.size);
    RunPiece(p, after, sc);
  }

  lemma MemberOfHeader(h: seq<Byte>, sc: Scan)
    requires |h| == BLOCK && ReadMember(h, sc).Ok?
    ensures ReadMember(h, sc).value.regular == (h[156] != 53 && h[156] != 50)
  {
    hide CheckFormat, ReadName, CheckLink, ParseTarNumber, MANIFEST;
  }

  lemma {:induction false} RunIsLaid(rest: seq<Byte>, sc: Scan) returns (pieces: seq<Piece>, zeros: seq<Byte>)
    requires sc.zeroBlocks == 0 && sc.regularBytes <= MAX_UNCOMPRESSED_BYTES && Run(rest, sc).Ok?
    requires Distinct(sc.names) && |sc.names| <= MAX_MEMBERS
    ensures rest == BytesOf(pieces) + zeros && AllZero(zeros) && |zeros| >= 2 * BLOCK && Continues(pieces, sc)
    decreases |rest|
  {
    AcceptedIsWhole(rest, sc);
    if AllZero(rest[..BLOCK]) {
      AcceptedEnd(rest, sc);
      pieces, zeros := [], rest;
      assert rest[0..] == rest && BytesOf([]) + rest == rest;
      assert sc.names + NamesOf([]) == sc.names;
    } else {
      hide *;
      var p, after := HeadPiece(rest, sc);
      FitsPast(p, sc);
      pieces, zeros := RunIsLaid(after, Past(sc, p));
      ContinuesPast(p, pieces, sc);
      BytesOfMore(p, pieces);
      assert rest == p.header + p.body + p.padding + (BytesOf(pieces) + zeros);
      pieces := [p] + pieces;
    }
  }

  lemma BytesOfMore(p: Piece, rest: seq<Piece>)
    ensures BytesOf([p] + rest) == p.header + p.body + p.padding + BytesOf(rest)
  {
    assert ([p] + rest)[1..] == rest;
  }

  lemma FitsPast(p: Piece, sc: Scan)
    requires Fits(p.name, |p.body|, sc) && Distinct(sc.names)
    ensures
      var past := Past(sc, p);
      && past.zeroBlocks == sc.zeroBlocks && past.regularBytes <= MAX_UNCOMPRESSED_BYTES
      && Distinct(past.names) && |past.names| <= MAX_MEMBERS
  {
    hide MANIFEST;
  }

  /** The stream is these members, then at least two blocks of zeros and nothing else. */
  ghost predicate Holds(stream: seq<Byte>, pieces: seq<Piece>, zeros: seq<Byte>) {
    stream == BytesOf(pieces) + zeros && Canonical(pieces) && |zeros| >= 2 * BLOCK && AllZero(zeros)
  }

  /** The names in order, and the last member's body. */
  function Summary(pieces: seq<Piece>): Preflight {
    Preflight(NamesOf(pieces), if pieces == [] then [] else pieces[|pieces| - 1].body)
  }

  lemma StartsCanonical(pieces: seq<Piece>)
    requires Continues(pieces, START)
    ensures Canonical(pieces) <==> pieces != [] && pieces[|pieces| - 1].name == MANIFEST
    ensures
      var r := Finish(PastAll(START, pieces).(zeroBlocks := 2));
      if Canonical(pieces) then r == Ok(Summary(pieces)) else r.Err?
  {
    hide PieceOk, MANIFEST, PastAll, Distinct, Finish;
    PastAllIs(START, pieces);
    assert [] + NamesOf(pieces) == NamesOf(pieces);
    FinishIs(pieces, PastAll(START, pieces));
  }

  lemma FinishIs(pieces: seq<Piece>, sc: Scan)
    requires sc.names == NamesOf(pieces)
    requires pieces != [] && pieces[|pieces| - 1].name == MANIFEST ==> sc.manifest == Some(pieces[|pieces| - 1].body)
    ensures
      var r := Finish(sc.(zeroBlocks := 2));
      if pieces != [] && pieces[|pieces| - 1].name == MANIFEST then r == Ok(Summary(pieces)) else r.Err?
  {
    hide MANIFEST;
    if pieces != [] {
      assert NamesOf(pieces)[|pieces| - 1] == pieces[|pieces| - 1].name;
    }
  }

  lemma CanonicalContinues(pieces: seq<Piece>)
    requires Canonical(pieces)
    ensures Continues(pieces, START)
  {
    hide PieceOk, MANIFEST;
    assert [] + NamesOf(pieces) == NamesOf(pieces);
  }

  /**
   The preflight accepts a stream exactly when it is a canonical member list and zeros, and then returns
   the names in order and the last member's body.
  */
  lemma AcceptsExactly(stream: seq<Byte>, p: Preflight)
    ensures Run(stream, START) == Ok(p) <==>
      exists pieces, zeros :: Holds(stream, pieces, zeros) && p == Summary(pieces)
  {
    hide Run, Canonical, Continues, BytesOf, Finish, PastAll;
    if Run(stream, START) == Ok(p) {
      var pieces, zeros := RunIsLaid(stream, START);
      LaidRuns(pieces, zeros, START);
      StartsCanonical(pieces);
      assert Holds(stream, pieces, zeros);
    }
    if pieces, zeros :| Holds(stream, pieces, zeros) && p == Summary(pieces) {
      CanonicalContinues(pieces);
      LaidRuns(pieces, zeros, START);
      StartsCanonical(pieces);
    }
  }
}
