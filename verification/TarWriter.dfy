/**
 The writer the preflight inverts: members laid out by the ustar Interchange Format of the pax
 utility of IEEE Std 1003.1, with zero padding and an end marker of at least two zero blocks.

 A header is one block of 512 bytes: the name in bytes 0 to 99, then mode, owner, group, size and
 time as octal numbers, the checksum in bytes 148 to 155, the type in byte 156, the link target in
 bytes 157 to 256, the magic and version in bytes 257 to 264, and the prefix in bytes 345 to 499.
 Numbers end in a NUL, the checksum in a NUL and a space, and texts are filled with NULs. The
 contents follow the header, filled up to a whole number of blocks.
 */
module TarWriter {
  import opened Options
  import opened Bytes
  import opened Sorting
  import opened TarReader

  // ------------------------------------------------------------ numeric fields

  function Power8(k: nat): nat {
    if k == 0 then 1 else 8 * Power8(k - 1)
  }

  function OctalDigits(n: nat, width: nat): (digits: seq<Byte>)
    ensures |digits| == width && forall b | b in digits :: IsOctal(b)
  {
    if width == 0 then [] else OctalDigits(n / 8, width - 1) + [48 + n % 8]
  }

  lemma {:induction false} OctalRoundTrip(n: nat, width: nat)
    requires n < Power8(width)
    ensures OctalValue(OctalDigits(n, width)) == n
  {
    if width > 0 {
      OctalRoundTrip(n / 8, width - 1);
      var digits := OctalDigits(n, width);
      assert digits[..|digits| - 1] == OctalDigits(n / 8, width - 1);
    }
  }

  /** Digits followed by NULs and spaces parse to their value. */
  lemma {:induction false} ParseDigits(digits: seq<Byte>, tail: seq<Byte>)
    requires digits != [] && forall b | b in digits :: IsOctal(b)
    requires forall i | 0 <= i < |tail| :: tail[i] == 0 || tail[i] == 32
    ensures ParseTarNumber(digits + tail) == Ok(OctalValue(digits))
    decreases |tail|
  {
    var raw := digits + tail;
    assert raw[|raw| - 1] in if tail == [] then digits else tail;
    if tail == [] {
      assert raw == digits && digits[0] in digits;
    } else {
      assert raw[..|raw| - 1] == digits + tail[..|tail| - 1];
      ParseDigits(digits, tail[..|tail| - 1]);
    }
  }

  /** A field of octal digits ending in NUL. */
  function NumberField(n: nat, width: nat): (field: seq<Byte>)
    requires width > 0
    ensures |field| == width
  {
    OctalDigits(n, width - 1) + [0]
  }

  lemma NumberRoundTrip(n: nat, width: nat)
    requires width > 1 && n < Power8(width - 1)
    ensures ParseTarNumber(NumberField(n, width)) == Ok(n)
  {
    ParseDigits(OctalDigits(n, width - 1), [0]);
    OctalRoundTrip(n, width - 1);
  }

  /** The checksum field: six octal digits, NUL, space. */
  function ChecksumField(sum: nat): (field: seq<Byte>)
    ensures |field| == 8
  {
    OctalDigits(sum, 6) + [0, 32]
  }

  lemma ChecksumRoundTrip(sum: nat)
    requires sum < Power8(6)
    ensures ParseTarNumber(ChecksumField(sum)) == Ok(sum)
  {
    ParseDigits(OctalDigits(sum, 6), [0, 32]);
    OctalRoundTrip(sum, 6);
  }

  // ------------------------------------------------------------ text fields

  function Pad(text: seq<Byte>, width: nat): (field: seq<Byte>)
    requires |text| <= width
    ensures |field| == width
  {
    text + Fill(width - |text|, 0)
  }

  lemma {:induction false} TextRoundTrip(text: seq<Byte>, zeros: nat)
    requires 0 !in text
    ensures UntilNul(text + Fill(zeros, 0)) == text
  {
    var raw := text + Fill(zeros, 0);
    if text != [] {
      assert raw[0] == text[0] && text[0] in text && raw[1..] == text[1..] + Fill(zeros, 0);
      TextRoundTrip(text[1..], zeros);
    }
  }

  // ------------------------------------------------------------ members

  /** `base` is the name field as written, so a directory's may end in a slash. */
  datatype Entry = Entry(prefix: seq<Byte>, base: seq<Byte>, flag: Byte, mode: nat, link: seq<Byte>, body: seq<Byte>)

  function Joined(e: Entry): seq<Byte> {
    e.prefix + (if e.prefix == [] then [] else [47]) + e.base
  }

  function FullName(e: Entry): seq<Byte> {
    if e.flag == 53 then DropTrailingByte(Joined(e), 47) else Joined(e)
  }

  predicate Regular(e: Entry) {
    e.flag == 0 || e.flag == 48
  }

  /** Fits the fields of a ustar header. */
  predicate Expressible(e: Entry) {
    && |e.prefix| <= 155 && |e.base| <= 100 && |e.link| <= 100
    && 0 !in e.prefix && 0 !in e.base && 0 !in e.link
    && e.mode < 0x20_0000 && |e.body| < 0x2_0000_0000
  }

  /** Expressible, and canonical by the program's own rules for one member. */
  predicate WellFormed(e: Entry)
    ensures WellFormed(e) ==> Expressible(e)
  {
    && Expressible(e)
    && e.flag in {0, 48, 53, 50} && (!Regular(e) ==> e.body == [])
    && (e.mode / 512) % 8 == 0
    && ValidUtf8(Joined(e)) && SafeName(FullName(e))
    && |e.body| <= (if FullName(e) == MANIFEST then MAX_MANIFEST_BYTES else MAX_FILE_BYTES)
    && (e.flag == 50 ==> ValidUtf8(e.link) && e.link != [] && e.link[0] != 47 && 92 !in e.link)
  }

  /** The header with its checksum field blank. */
  function RawByte(e: Entry, i: nat): Byte
    requires Expressible(e) && i < BLOCK
  {
    if i < 100 then Pad(e.base, 100)[i]
    else if i < 108 then NumberField(e.mode, 8)[i - 100]
    else if i < 116 then NumberField(0, 8)[i - 108]
    else if i < 124 then NumberField(0, 8)[i - 116]
    else if i < 136 then NumberField(|e.body|, 12)[i - 124]
    else if i < 148 then NumberField(0, 12)[i - 136]
    else if i < 156 then 32
    else if i < 157 then e.flag
    else if i < 257 then Pad(e.link, 100)[i - 157]
    else if i < 265 then POSIX_MAGIC[i - 257]
    else if i < 345 then 0
    else if i < 500 then Pad(e.prefix, 155)[i - 345]
    else 0
  }

  function RawHeader(e: Entry): (h: seq<Byte>)
    requires Expressible(e)
    ensures |h| == BLOCK
  {
    seq(BLOCK, i requires 0 <= i < BLOCK => RawByte(e, i))
  }

  function Header(e: Entry): (h: seq<Byte>)
    requires Expressible(e)
    ensures |h| == BLOCK
  {
    RawHeader(e)[..148] + ChecksumField(Sum(RawHeader(e))) + RawHeader(e)[156..]
  }

  function Laid(e: Entry): seq<Byte>
    requires Expressible(e)
  {
    Header(e) + e.body + Fill(Padding(|e.body|), 0)
  }

  /** The whole archive: every member, the end marker, and any number of further zero bytes. */
  function Archive(es: seq<Entry>, extra: nat): seq<Byte>
    requires forall e | e in es :: WellFormed(e)
  {
    if es == [] then Fill(2 * BLOCK + extra, 0)
    else
      assert WellFormed(es[0]);
      Laid(es[0]) + Archive(es[1..], extra)
  }

  // ------------------------------------------------------------ what the reader finds in a header

  lemma {:induction false} SumBound(bytes: seq<Byte>)
    ensures Sum(bytes) <= 255 * |bytes|
  {
    if bytes != [] {
      SumBound(bytes[..|bytes| - 1]);
    }
  }

  /** A field of the header outside the checksum. */
  lemma FieldAt(e: Entry, lo: nat, field: seq<Byte>)
    requires Expressible(e) && lo + |field| <= BLOCK && (lo + |field| <= 148 || 156 <= lo)
    requires forall i | 0 <= i < |field| :: RawByte(e, lo + i) == field[i]
    ensures Header(e)[lo..lo + |field|] == field
  {
    hide RawByte, Expressible;
    var raw, h := RawHeader(e), Header(e);
    forall i | 0 <= i < |field|
      ensures h[lo + i] == field[i]
    {
      assert raw[lo + i] == RawByte(e, lo + i);
      if 156 <= lo {
        assert raw[156..][lo + i - 156] == raw[lo + i];
      }
    }
  }

  lemma ChecksumAt(e: Entry)
    requires Expressible(e)
    ensures Header(e)[148..156] == ChecksumField(Sum(RawHeader(e)))
    ensures Blanked(Header(e)) == RawHeader(e)
  {
    var raw := RawHeader(e);
    forall i | 148 <= i < 156
      ensures raw[i] == 32
    {
      assert raw[i] == RawByte(e, i);
      hide Expressible;
    }
    hide RawByte, Expressible, RawHeader;
    assert Header(e)[..148] == raw[..148] && Header(e)[156..] == raw[156..];
    assert raw == raw[..148] + raw[148..156] + raw[156..];
    assert raw[148..156] == Fill(8, 32);
  }

  lemma HeaderNumbers(e: Entry)
    requires Expressible(e)
    ensures Header(e)[100..108] == NumberField(e.mode, 8)
    ensures Header(e)[108..116] == Header(e)[116..124] == NumberField(0, 8)
    ensures Header(e)[124..136] == NumberField(|e.body|, 12) && Header(e)[136..148] == NumberField(0, 12)
  {
    hide Expressible, NumberField;
    FieldAt(e, 100, NumberField(e.mode, 8));
    FieldAt(e, 108, NumberField(0, 8));
    FieldAt(e, 116, NumberField(0, 8));
    FieldAt(e, 124, NumberField(|e.body|, 12));
    FieldAt(e, 136, NumberField(0, 12));
  }

  lemma HeaderNameAndLink(e: Entry)
    requires Expressible(e)
    ensures Header(e)[0..100] == Pad(e.base, 100) && Header(e)[157..257] == Pad(e.link, 100)
  {
    assert |e.base| <= 100 && |e.link| <= 100;
    hide Expressible, Pad, Header, RawHeader;
    FieldAt(e, 0, Pad(e.base, 100));
    FieldAt(e, 157, Pad(e.link, 100));
  }

  lemma HeaderFlagAndMagic(e: Entry)
    requires Expressible(e)
    ensures Header(e)[156] == e.flag && Header(e)[257..265] == POSIX_MAGIC
  {
    hide Expressible, Pad, Header, RawHeader;
    FieldAt(e, 156, [e.flag]);
    assert Header(e)[156] == Header(e)[156..157][0];
    FieldAt(e, 257, POSIX_MAGIC);
  }

  lemma HeaderPrefix(e: Entry)
    requires Expressible(e)
    ensures Header(e)[345..500] == Pad(e.prefix, 155)
  {
    assert |e.prefix| <= 155;
    hide Expressible, Pad, Header, RawHeader;
    FieldAt(e, 345, Pad(e.prefix, 155));
  }

  lemma HeaderTexts(e: Entry)
    requires Expressible(e)
    ensures Header(e)[0..100] == Pad(e.base, 100) && Header(e)[156] == e.flag
    ensures Header(e)[157..257] == Pad(e.link, 100)
    ensures Header(e)[257..265] == POSIX_MAGIC
    ensures Header(e)[345..500] == Pad(e.prefix, 155)
  {
    HeaderNameAndLink(e);
    HeaderFlagAndMagic(e);
    HeaderPrefix(e);
    hide *;
  }

  lemma FieldsAreWideEnough(e: Entry)
    requires Expressible(e)
    ensures e.mode < Power8(7) && 0 < Power8(7) && |e.body| < Power8(11) && Sum(RawHeader(e)) < Power8(6)
  {
    hide RawByte;
    SumBound(RawHeader(e));
    assert Power8(6) == 0x4_0000 && Power8(7) == 0x20_0000 && Power8(11) == 0x2_0000_0000;
  }

  lemma HeaderNumbersParse(e: Entry)
    requires Expressible(e)
    ensures ParseTarNumber(Header(e)[100..108]) == Ok(e.mode)
    ensures ParseTarNumber(Header(e)[108..116]) == Ok(0) == ParseTarNumber(Header(e)[116..124])
    ensures ParseTarNumber(Header(e)[124..136]) == Ok(|e.body|) && ParseTarNumber(Header(e)[136..148]) == Ok(0)
    ensures ParseTarNumber(Header(e)[148..156]) == Ok(Sum(RawHeader(e)))
    ensures Sum(Blanked(Header(e))) == Sum(RawHeader(e))
  {
    hide *;
    HeaderNumbers(e);
    ChecksumAt(e);
    FieldsAreWideEnough(e);
    NumberRoundTrip(e.mode, 8);
    NumberRoundTrip(0, 8);
    NumberRoundTrip(|e.body|, 12);
    NumberRoundTrip(0, 12);
    ChecksumRoundTrip(Sum(RawHeader(e)));
  }

  lemma TextFieldRoundTrip(text: seq<Byte>, width: nat)
    requires 0 !in text && |text| <= width
    ensures UntilNul(Pad(text, width)) == text
  {
    TextRoundTrip(text, width - |text|);
  }

  lemma TextsFit(e: Entry)
    requires Expressible(e)
    ensures 0 !in e.prefix && 0 !in e.base && 0 !in e.link && |e.prefix| <= 155 && |e.base| <= 100 && |e.link| <= 100
  {
  }

  lemma HeaderTextsParse(e: Entry)
    requires Expressible(e)
    ensures UntilNul(Header(e)[0..100]) == e.base && UntilNul(Header(e)[345..500]) == e.prefix
    ensures UntilNul(Header(e)[157..257]) == e.link
  {
    hide *;
    TextsFit(e);
    HeaderTexts(e);
    TextFieldRoundTrip(e.base, 100);
    TextFieldRoundTrip(e.prefix, 155);
    TextFieldRoundTrip(e.link, 100);
  }

  /** The reader's sparse test cuts the prefix field down to its first 41 bytes. */
  lemma SparseTestReadsPrefix(e: Entry)
    requires Expressible(e)
    ensures AllZero(Header(e)[386..482]) && Header(e)[482] == 0 <==> |e.prefix| <= 41
  {
    hide Header, RawHeader;
    HeaderTexts(e);
    var h, field := Header(e), Pad(e.prefix, 155);
    assert forall i | 0 <= i < 155 :: h[345 + i] == h[345..500][i] == field[i];
    if |e.prefix| > 41 {
      assert h[386] == field[41] == e.prefix[41] && e.prefix[41] in e.prefix;
      assert h[386..482][0] == h[386];
    } else {
      forall i | 0 <= i < 96
        ensures h[386..482][i] == 0
      {
        assert h[386..482][i] == h[345 + (41 + i)] == field[41 + i];
      }
      assert h[482] == h[345 + 137];
    }
  }

  lemma FormatAccepted(e: Entry)
    requires Expressible(e) && e.flag in {0, 48, 53, 50}
    ensures CheckFormat(Header(e)) == if |e.prefix| <= 41 then Ok(()) else Err(SparseMetadata)
  {
    HeaderTexts(e);
    HeaderNumbersParse(e);
    SparseTestReadsPrefix(e);
    hide Header, RawHeader, ParseTarNumber, Sum, Blanked, AllZero;
  }

  // ------------------------------------------------------------ one member

  /** The member adds nothing the members before it rule out. */
  predicate Admissible(e: Entry, sc: Scan) {
    && FullName(e) !in sc.names && |sc.names| < MAX_MEMBERS
    && (Regular(e) ==> sc.regularBytes + |e.body| <= MAX_UNCOMPRESSED_BYTES)
  }

  lemma ReadNameOfHeader(e: Entry)
    requires WellFormed(e)
    ensures ReadName(Header(e)) == Ok(FullName(e))
  {
    HeaderTexts(e);
    HeaderTextsParse(e);
    hide Header, RawHeader, UntilNul, Pad, SafeName, ValidUtf8, DropTrailingByte;
  }

  lemma CheckLinkOfHeader(e: Entry)
    requires WellFormed(e) && e.flag == 50
    ensures CheckLink(Header(e)) == Ok(())
  {
    HeaderTextsParse(e);
    hide Header, RawHeader, UntilNul, SafeName, ValidUtf8, DropTrailingByte;
  }

  /** The plain facts of `WellFormed` that the checks after the name need. */
  lemma BodyFits(e: Entry)
    requires WellFormed(e)
    ensures (e.mode / 512) % 8 == 0 && e.flag in {0, 48, 53, 50} && (!Regular(e) ==> e.body == [])
    ensures |e.body| <= (if FullName(e) == MANIFEST then MAX_MANIFEST_BYTES else MAX_FILE_BYTES)
  {
  }

  lemma ReadHeader(e: Entry, sc: Scan)
    requires WellFormed(e) && Admissible(e, sc)
    ensures ReadMember(Header(e), sc) ==
      if |e.prefix| <= 41 then Ok(Member(FullName(e), |e.body|, Regular(e))) else Err(SparseMetadata)
  {
    hide Header, ParseTarNumber, CheckFormat, ReadName, CheckLink, WellFormed, FullName;
    BodyFits(e);
    FormatAccepted(e);
    HeaderTexts(e);
    HeaderNumbersParse(e);
    ReadNameOfHeader(e);
    if e.flag == 50 {
      CheckLinkOfHeader(e);
    }
  }

  // ------------------------------------------------------------ the whole archive

  lemma HeaderIsNotZero(e: Entry)
    requires Expressible(e)
    ensures !AllZero(Header(e))
  {
    HeaderTexts(e);
    assert Header(e)[257] == Header(e)[257..265][0] == 117;
  }

  function LaidSize(e: Entry): nat {
    BLOCK + |e.body| + Padding(|e.body|)
  }

  /** Reading one laid-out member. */
  lemma RunMember(e: Entry, rest: seq<Byte>, sc: Scan)
    requires WellFormed(e) && Admissible(e, sc) && sc.zeroBlocks == 0
    ensures Run(Laid(e) + rest, sc) ==
      if |e.prefix| <= 41 then Run(rest, Advance(sc, Member(FullName(e), |e.body|, Regular(e)), e.body))
      else Err(SparseMetadata)
  {
    hide WellFormed, ReadMember, Header, FullName, Padding;
    HeaderIsNotZero(e);
    ReadHeader(e, sc);
    var all := Laid(e) + rest;
    assert all[..BLOCK] == Header(e);
    assert all[BLOCK..BLOCK + |e.body|] == e.body;
    assert all[LaidSize(e)..] == rest;
  }

  /** Any zero bytes after the end marker are read to the end. */
  lemma RunEnd(extra: nat, sc: Scan)
    requires sc.zeroBlocks == 0
    ensures Run(Fill(2 * BLOCK + extra, 0), sc) == Finish(sc.(zeroBlocks := 2))
  {
    var all := Fill(2 * BLOCK + extra, 0);
    var once := all[BLOCK..];
    var twice := once[BLOCK..];
    assert AllZero(all[..BLOCK]) && AllZero(once[..BLOCK]) && AllZero(twice);
    assert Run(all, sc) == Run(once, sc.(zeroBlocks := 1));
    assert Run(once, sc.(zeroBlocks := 1)) == Run(twice, sc.(zeroBlocks := 2));
  }

  function After(sc: Scan, e: Entry): Scan {
    Advance(sc, Member(FullName(e), |e.body|, Regular(e)), e.body)
  }

  function AfterAll(sc: Scan, es: seq<Entry>): Scan
    decreases |es|
  {
    if es == [] then sc else AfterAll(After(sc, es[0]), es[1..])
  }

  predicate AdmissibleAll(es: seq<Entry>, sc: Scan) {
    es == [] || (Admissible(es[0], sc) && AdmissibleAll(es[1..], After(sc, es[0])))
  }

  lemma {:induction false} RunArchive(es: seq<Entry>, extra: nat, sc: Scan)
    requires (forall e | e in es :: WellFormed(e)) && AdmissibleAll(es, sc) && sc.zeroBlocks == 0
    ensures Run(Archive(es, extra), sc) ==
      if forall e | e in es :: |e.prefix| <= 41 then Finish(AfterAll(sc, es).(zeroBlocks := 2)) else Err(SparseMetadata)
  {
    hide WellFormed, Run, Finish, Advance, FullName, Laid;
    if es == [] {
      RunEnd(extra, sc);
    } else {
      assert es == [es[0]] + es[1..];
      RunMember(es[0], Archive(es[1..], extra), sc);
      assert After(sc, es[0]).zeroBlocks == 0 by {
        AdvanceKeepsZeroBlocks(sc, es[0]);
      }
      RunArchive(es[1..], extra, After(sc, es[0]));
    }
  }

  lemma AdvanceKeepsZeroBlocks(sc: Scan, e: Entry)
    ensures After(sc, e).zeroBlocks == sc.zeroBlocks
  {
  }

  // ------------------------------------------------------------ the round trip

  function Names(es: seq<Entry>): (names: seq<seq<Byte>>)
    ensures |names| == |es|
  {
    seq(|es|, i requires 0 <= i < |es| => FullName(es[i]))
  }

  function RegularBytes(es: seq<Entry>): nat {
    if es == [] then 0
    else RegularBytes(es[1..]) + if Regular(es[0]) then |es[0].body| else 0
  }

  /** A member list within the program's quotas that ends in a regular manifest. */
  predicate Acceptable(es: seq<Entry>) {
    && (forall e | e in es :: WellFormed(e))
    && Distinct(Names(es)) && 0 < |es| <= MAX_MEMBERS && RegularBytes(es) <= MAX_UNCOMPRESSED_BYTES
    && FullName(es[|es| - 1]) == MANIFEST && Regular(es[|es| - 1])
  }

  /** Printable text of more than nine bytes, without slash, backslash or a leading period. */
  predicate PlainName(name: seq<Byte>) {
    |name| > 9 && name[0] != 46 && forall i | 0 <= i < |name| :: 32 < name[i] < 127 && name[i] != 47 && name[i] != 92
  }

  lemma PlainIsSafe(name: seq<Byte>)
    requires PlainName(name)
    ensures SafePart(name) && ValidUtf8(name) && Split(name, 47) == [name] && 0 !in name && 92 !in name
  {
    SplitPiece(name, 47, []);
    AsciiIsUtf8(name);
    hide ValidUtf8, Split;
    assert |Lower(name)| == |name|;
    assert Ascii("._")[0] == 46;
  }

  lemma ManifestIsSafe()
    ensures SafeName(MANIFEST) && ValidUtf8(MANIFEST) && |MANIFEST| == 19 && 0 !in MANIFEST
  {
    assert PlainName(MANIFEST);
    hide PlainName, ValidUtf8, SafePart, Split;
    PlainIsSafe(MANIFEST);
  }

  /** The manifest alone is such a list. */
  lemma ManifestAlone(body: seq<Byte>)
    requires |body| <= MAX_MANIFEST_BYTES
    ensures Acceptable([Entry([], MANIFEST, 48, 0, [], body)])
  {
    ManifestIsSafe();
    hide SafeName, ValidUtf8, MANIFEST;
    var e := Entry([], MANIFEST, 48, 0, [], body);
    assert Joined(e) == MANIFEST;
    assert WellFormed(e);
    assert RegularBytes([e]) == |body|;
  }

  lemma {:induction false} AcceptableIsAdmissible(es: seq<Entry>, sc: Scan)
    requires Distinct(sc.names + Names(es)) && |sc.names| + |es| <= MAX_MEMBERS
    requires sc.regularBytes + RegularBytes(es) <= MAX_UNCOMPRESSED_BYTES
    ensures AdmissibleAll(es, sc)
    ensures AfterAll(sc, es).names == sc.names + Names(es)
    ensures es != [] && FullName(es[|es| - 1]) == MANIFEST ==> AfterAll(sc, es).manifest == Some(es[|es| - 1].body)
  {
    hide FullName, MANIFEST;
    if es != [] {
      var all := sc.names + Names(es);
      assert all == After(sc, es[0]).names + Names(es[1..]);
      forall i | 0 <= i < |sc.names|
        ensures sc.names[i] != FullName(es[0])
      {
        assert all[i] != all[|sc.names|];
      }
      AcceptableIsAdmissible(es[1..], After(sc, es[0]));
      if |es| == 1 {
        assert es[1..] == [];
      }
    }
  }

  lemma LastName(es: seq<Entry>)
    requires es != []
    ensures Names(es)[|es| - 1] == FullName(es[|es| - 1])
  {
  }

  /**
   The preflight returns the names written, in order, and the manifest written: exactly when no prefix
   passes byte 41.
  */
  lemma PreflightInvertsWriter(es: seq<Entry>, extra: nat)
    requires Acceptable(es)
    ensures Run(Archive(es, extra), START) ==
      if forall e | e in es :: |e.prefix| <= 41
      then Ok(Preflight(Names(es), es[|es| - 1].body)) else Err(SparseMetadata)
  {
    hide WellFormed, Run, AfterAll, AdmissibleAll, FullName, RegularBytes, Archive, Names;
    assert [] + Names(es) == Names(es);
    AcceptableIsAdmissible(es, START);
    RunArchive(es, extra, START);
    assert Names(es)[|es| - 1] == MANIFEST by {
      LastName(es);
    }
  }

  /** Two acceptable member lists with the same bytes have the same names and the same manifest. */
  lemma ArchiveBytesDetermineNames(es: seq<Entry>, fs: seq<Entry>, extra: nat, otherExtra: nat)
    requires Acceptable(es) && Acceptable(fs) && Archive(es, extra) == Archive(fs, otherExtra)
    requires forall e | e in es :: |e.prefix| <= 41
    ensures Names(es) == Names(fs) && es[|es| - 1].body == fs[|fs| - 1].body
  {
    PreflightInvertsWriter(es, extra);
    PreflightInvertsWriter(fs, otherExtra);
    hide *;
  }

  // ------------------------------------------------------------ whatever is accepted

  predicate GoodNames(names: seq<seq<Byte>>) {
    Distinct(names) && |names| <= MAX_MEMBERS && forall n | n in names :: SafeName(n)
  }

  lemma ReadMemberFacts(header: seq<Byte>, sc: Scan)
    requires |header| == BLOCK && ReadMember(header, sc).Ok?
    ensures
      var name := ReadMember(header, sc).value.name;
      SafeName(name) && name !in sc.names && |sc.names| < MAX_MEMBERS
  {
    hide CheckFormat, ParseTarNumber, CheckLink, SafeName, UntilNul, ValidUtf8, DropTrailingByte;
  }

  lemma ReadMemberIsGood(header: seq<Byte>, sc: Scan)
    requires |header| == BLOCK && GoodNames(sc.names) && ReadMember(header, sc).Ok?
    ensures GoodNames(sc.names + [ReadMember(header, sc).value.name])
  {
    hide ReadMember, SafeName;
    ReadMemberFacts(header, sc);
  }

  /** Where the end marker of an accepted archive begins: on a block boundary, and nothing but zeros follow. */
  ghost predicate EndsAt(rest: seq<Byte>, k: nat) {
    k % BLOCK == 0 && k + 2 * BLOCK <= |rest| && AllZero(rest[k..])
  }

  lemma AcceptedEnd(rest: seq<Byte>, sc: Scan)
    requires sc.zeroBlocks == 0 && Run(rest, sc).Ok? && AllZero(rest[..BLOCK])
    ensures EndsAt(rest, 0) && Run(rest, sc).value.names == sc.names
    ensures sc.names != [] && sc.names[|sc.names| - 1] == MANIFEST
  {
    var once := rest[BLOCK..];
    var sc1 := sc.(zeroBlocks := 1);
    assert Run(rest, sc) == Run(once, sc1);
    assert |once| >= BLOCK && AllZero(once[..BLOCK]);
    assert Run(once, sc1) == Run(once[BLOCK..], sc.(zeroBlocks := 2));
    hide Run;
    assert rest == rest[..BLOCK] + (once[..BLOCK] + once[BLOCK..]);
    assert rest[0..] == rest;
  }

  /** One member, and what is left after it. */
  lemma AcceptedMember(rest: seq<Byte>, sc: Scan) returns (end: nat, after: Scan)
    requires sc.zeroBlocks == 0 && GoodNames(sc.names) && Run(rest, sc).Ok? && !AllZero(rest[..BLOCK])
    ensures 0 < end <= |rest| && end % BLOCK == 0 && Run(rest, sc) == Run(rest[end..], after)
    ensures after.zeroBlocks == 0 && GoodNames(after.names) && sc.names <= after.names
  {
    hide ReadMember, GoodNames, Padding, MANIFEST, AllZero;
    var m := ReadMember(rest[..BLOCK], sc).value;
    end := BLOCK + m.size + Padding(m.size);
    after := Advance(sc, m, rest[BLOCK..BLOCK + m.size]);
    ReadMemberIsGood(rest[..BLOCK], sc);
    PaddingFillsBlocks(m.size);
  }

  lemma EndsLater(rest: seq<Byte>, end: nat, k: nat)
    requires end <= |rest| && end % BLOCK == 0 && EndsAt(rest[end..], k)
    ensures EndsAt(rest, end + k)
  {
    assert rest[end..][k..] == rest[end + k..];
  }

  /** Any accepted archive: distinct safe names, the manifest last, whole blocks up to the zeros. */
  lemma {:induction false} AcceptedArchive(rest: seq<Byte>, sc: Scan) returns (k: nat)
    requires sc.zeroBlocks == 0 && GoodNames(sc.names) && Run(rest, sc).Ok?
    ensures EndsAt(rest, k)
    ensures
      var p := Run(rest, sc).value;
      GoodNames(p.names) && p.names != [] && p.names[|p.names| - 1] == MANIFEST && sc.names <= p.names
    decreases |rest|
  {
    hide *;
    AcceptedIsWhole(rest, sc);
    if AllZero(rest[..BLOCK]) {
      AcceptedEnd(rest, sc);
      k := 0;
    } else {
      var end, after := AcceptedMember(rest, sc);
      k := AcceptedArchive(rest[end..], after);
      EndsLater(rest, end, k);
      k := end + k;
    }
  }

  lemma AcceptedIsWhole(rest: seq<Byte>, sc: Scan)
    requires sc.zeroBlocks == 0 && Run(rest, sc).Ok?
    ensures |rest| >= BLOCK
  {
  }

  lemma PaddingFillsBlocks(size: nat)
    ensures (BLOCK + size + Padding(size)) % BLOCK == 0 && Padding(size) < BLOCK
  {
  }
}
