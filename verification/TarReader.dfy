/** The raw preflight of an archive. */
module TarReader {
  /*
   The raw preflight of the runtime-input archive: a hand-written reader of ustar headers that runs
   before any library parser sees the archive. The decompressed archive is a byte sequence.
  */

  import opened Options
  import opened Bytes

  const BLOCK: nat := 512
  const MAX_MANIFEST_BYTES: nat := 0x100_0000      // 16 MiB
  const MAX_MEMBERS: nat := 2048
  const MAX_UNCOMPRESSED_BYTES: nat := 0x4000_0000 // 1 GiB
  const MAX_FILE_BYTES: nat := 0x2000_0000         // 512 MiB

  const MANIFEST: seq<Byte> := Ascii("native-runtime.json")
  const OPT: seq<Byte> := Ascii("opt")
  const PRIVATE: seq<Byte> := Ascii("opt/nebular-private")
  const POSIX_MAGIC: seq<Byte> := [117, 115, 116, 97, 114, 0, 48, 48] // "ustar" NUL "00"
  const GNU_MAGIC: seq<Byte> := [117, 115, 116, 97, 114, 32, 32, 0]   // "ustar  " NUL

  datatype Error =
    | TruncatedHeader | NonzeroAfterEnd | IncompleteEnd | BadMagic | SparseMetadata | BadOctal
    | BadChecksum | ExtendedHeader | SpecialType | NotUtf8 | UnsafeName | DuplicateName
    | MemberQuota | BadMetadata | BodyNotEmpty | MemberTooLarge | ByteQuota | UnsafeLink
    | TruncatedBody | NoManifest | ManifestNotLast

  type Read<T> = Result<T, Error>

  function Need(condition: bool, error: Error): Read<()> {
    if condition then Ok(()) else Err(error)
  }

  // ------------------------------------------------------------ fields

  predicate IsOctal(b: Byte) {
    48 <= b <= 55
  }

  function DropTrailing(raw: seq<Byte>): seq<Byte> {
    if raw != [] && raw[|raw| - 1] in {0, 32} then DropTrailing(raw[..|raw| - 1]) else raw
  }

  function DropLeading(raw: seq<Byte>, b: Byte): seq<Byte> {
    if raw != [] && raw[0] == b then DropLeading(raw[1..], b) else raw
  }

  function DropTrailingByte(raw: seq<Byte>, b: Byte): seq<Byte> {
    if raw != [] && raw[|raw| - 1] == b then DropTrailingByte(raw[..|raw| - 1], b) else raw
  }

  function OctalValue(digits: seq<Byte>): nat
    requires forall b | b in digits :: IsOctal(b)
  {
    if digits == [] then 0
    else
      var last := digits[|digits| - 1];
      assert last in digits && IsOctal(last);
      8 * OctalValue(digits[..|digits| - 1]) + (last - 48)
  }

  function ParseTarNumber(raw: seq<Byte>): Read<nat> {
    var value := DropLeading(DropTrailing(raw), 32);
    if forall b | b in value :: IsOctal(b) then Ok(OctalValue(value)) else Err(BadOctal)
  }

  function UntilNul(raw: seq<Byte>): seq<Byte> {
    if raw == [] || raw[0] == 0 then [] else [raw[0]] + UntilNul(raw[1..])
  }

  function Sum(bytes: seq<Byte>): nat {
    if bytes == [] then 0 else Sum(bytes[..|bytes| - 1]) + bytes[|bytes| - 1]
  }

  function Fill(count: nat, b: Byte): (s: seq<Byte>)
    ensures |s| == count && forall i | 0 <= i < count :: s[i] == b
  {
    seq(count, i requires 0 <= i < count => b)
  }

  predicate AllZero(bytes: seq<Byte>) {
    forall i | 0 <= i < |bytes| :: bytes[i] == 0
  }

  // ------------------------------------------------------------ names

  function Lower(part: seq<Byte>): seq<Byte> {
    seq(|part|, i requires 0 <= i < |part| => if 65 <= part[i] <= 90 then part[i] + 32 else part[i])
  }

  predicate SafePart(part: seq<Byte>) {
    && part != [] && part != Ascii(".") && part != Ascii("..")
    && Lower(part) != Ascii("db") && Lower(part) != Ascii("raw") && Lower(part) != Ascii(".serena")
    && !(Ascii("._") <= part) && part != Ascii(".DS_Store")
  }

  /** A canonical relative member name inside the closed prefix, or the manifest. */
  predicate SafeName(name: seq<Byte>) {
    && name != [] && name[|name| - 1] != 47 && name[0] != 47 && 92 !in name
    && (forall part | part in Split(name, 47) :: SafePart(part))
    && (name == MANIFEST || name == OPT || name == PRIVATE || PRIVATE + [47] <= name)
  }

  // ------------------------------------------------------------ one header

  /** What the loop carries from member to member. */
  datatype Scan = Scan(zeroBlocks: nat, names: seq<seq<Byte>>, manifest: Option<seq<Byte>>, regularBytes: nat)

  const START: Scan := Scan(0, [], None, 0)

  datatype Member = Member(name: seq<Byte>, size: nat, regular: bool)

  function Blanked(header: seq<Byte>): seq<Byte>
    requires |header| == BLOCK
  {
    header[..148] + Fill(8, 32) + header[156..]
  }

  function CheckFormat(header: seq<Byte>): Read<()>
    requires |header| == BLOCK
  {
    var _ :- Need(header[257..265] == POSIX_MAGIC || header[257..265] == GNU_MAGIC, BadMagic);
    var _ :- Need(AllZero(header[386..482]) && header[482] == 0, SparseMetadata);
    var expected :- ParseTarNumber(header[148..156]);
    var _ :- Need(Sum(Blanked(header)) == expected, BadChecksum);
    var _ :- Need(header[156] !in {120, 103, 76, 75}, ExtendedHeader);
    Need(header[156] in {0, 48, 53, 50}, SpecialType)
  }

  function ReadName(header: seq<Byte>): Read<seq<Byte>>
    requires |header| == BLOCK
  {
    var base := UntilNul(header[0..100]);
    var prefix := UntilNul(header[345..500]);
    var joined := prefix + (if prefix == [] then [] else [47]) + base;
    var _ :- Need(ValidUtf8(joined), NotUtf8);
    var name := if header[156] == 53 then DropTrailingByte(joined, 47) else joined;
    var _ :- Need(SafeName(name), UnsafeName);
    Ok(name)
  }

  function CheckLink(header: seq<Byte>): Read<()>
    requires |header| == BLOCK
  {
    var link := UntilNul(header[157..257]);
    var _ :- Need(ValidUtf8(link), NotUtf8);
    Need(link != [] && link[0] != 47 && 92 !in link, UnsafeLink)
  }

  /** Every check on one header, in order, given the members before it. */
  function ReadMember(header: seq<Byte>, sc: Scan): Read<Member>
    requires |header| == BLOCK
  {
    var _ :- CheckFormat(header);
    var name :- ReadName(header);
    var _ :- Need(name !in sc.names, DuplicateName);
    var _ :- Need(|sc.names| + 1 <= MAX_MEMBERS, MemberQuota);
    var mode :- ParseTarNumber(header[100..108]);
    var uid :- ParseTarNumber(header[108..116]);
    var gid :- ParseTarNumber(header[116..124]);
    var mtime :- ParseTarNumber(header[136..148]);
    var size :- ParseTarNumber(header[124..136]);
    var _ :- Need(uid == 0 && gid == 0 && mtime == 0 && (mode / 512) % 8 == 0, BadMetadata);
    var flag := header[156];
    var regular := flag != 53 && flag != 50;
    var _ :- Need(regular || size == 0, BodyNotEmpty);
    var _ :- Need(
      !regular || size <= (if name == MANIFEST then MAX_MANIFEST_BYTES else MAX_FILE_BYTES), MemberTooLarge);
    var _ :- Need(!regular || sc.regularBytes + size <= MAX_UNCOMPRESSED_BYTES, ByteQuota);
    var _ :- if flag == 50 then CheckLink(header) else Ok(());
    Ok(Member(name, size, regular))
  }

  function Padding(size: nat): nat {
    (size + 511) / 512 * 512 - size
  }

  /** The carried state after a member with this body. */
  function Advance(sc: Scan, m: Member, body: seq<Byte>): Scan {
    sc.(names := sc.names + [m.name],
        manifest := if m.name == MANIFEST then Some(body) else sc.manifest,
        regularBytes := sc.regularBytes + if m.regular then m.size else 0)
  }

  // ------------------------------------------------------------ the reader

  datatype Preflight = Preflight(names: seq<seq<Byte>>, manifest: seq<Byte>)

  function Finish(sc: Scan): Read<Preflight> {
    if sc.manifest.None? then Err(NoManifest)
    else if sc.names == [] || sc.names[|sc.names| - 1] != MANIFEST then Err(ManifestNotLast)
    else Ok(Preflight(sc.names, sc.manifest.value))
  }

  /** The rest of the scan, from the bytes still unread. */
  function Run(rest: seq<Byte>, sc: Scan): Read<Preflight>
    decreases |rest|
  {
    if sc.zeroBlocks == 2 then
      if AllZero(rest) then Finish(sc) else Err(NonzeroAfterEnd)
    else if |rest| < BLOCK then Err(TruncatedHeader)
    else if AllZero(rest[..BLOCK]) then Run(rest[BLOCK..], sc.(zeroBlocks := sc.zeroBlocks + 1))
    else if sc.zeroBlocks > 0 then Err(IncompleteEnd)
    else
      var m :- ReadMember(rest[..BLOCK], sc);
      var end := BLOCK + m.size + Padding(m.size);
      if |rest| < end then Err(TruncatedBody)
      else Run(rest[end..], Advance(sc, m, rest[BLOCK..BLOCK + m.size]))
  }

  /** How far one read of a block gets. */
  function NextBlock(stream: seq<Byte>, pos: nat): (next: nat)
    requires pos <= |stream|
    ensures pos <= next <= |stream| && (next == pos <==> pos == |stream|)
  {
    if pos + BLOCK <= |stream| then pos + BLOCK else |stream|
  }

  lemma TailStep(stream: seq<Byte>, pos: nat, sc: Scan)
    requires pos <= |stream| && sc.zeroBlocks == 2
    ensures
      var next := NextBlock(stream, pos);
      Run(stream[pos..], sc) == if AllZero(stream[pos..next]) then Run(stream[next..], sc) else Err(NonzeroAfterEnd)
  {
    var next := NextBlock(stream, pos);
    assert stream[pos..] == stream[pos..next] + stream[next..];
    if !AllZero(stream[pos..next]) {
      var i :| 0 <= i < next - pos && stream[pos..next][i] != 0;
      assert stream[pos..][i] != 0;
    }
  }

  /** The unread bytes once a header block and a body of `size` are behind. */
  lemma RestAfter(stream: seq<Byte>, pos: nat, size: nat)
    requires pos + BLOCK + size + Padding(size) <= |stream|
    ensures stream[pos..][..BLOCK] == stream[pos..pos + BLOCK]
    ensures stream[pos..][BLOCK..] == stream[pos + BLOCK..]
    ensures stream[pos..][BLOCK..BLOCK + size] == stream[pos + BLOCK..pos + BLOCK + size]
    ensures stream[pos..][BLOCK + size + Padding(size)..] == stream[pos + BLOCK + size + Padding(size)..]
  {
  }

  /** One pass of the loop before the end marker: where the reader stands after it, and with what. */
  function PassResult(stream: seq<Byte>, pos: nat, sc: Scan): Read<(nat, Scan)>
    requires pos <= |stream|
  {
    var next := NextBlock(stream, pos);
    var header := stream[pos..next];
    if |header| != BLOCK then Err(TruncatedHeader)
    else if AllZero(header) then Ok((next, sc.(zeroBlocks := sc.zeroBlocks + 1)))
    else if sc.zeroBlocks > 0 then Err(IncompleteEnd)
    else
      var m :- ReadMember(header, sc);
      var end := next + m.size + Padding(m.size);
      if |stream| < end then Err(TruncatedBody)
      else Ok((end, Advance(sc, m, stream[next..next + m.size])))
  }

  lemma PassIsRun(stream: seq<Byte>, pos: nat, sc: Scan)
    requires pos <= |stream| && sc.zeroBlocks < 2
    ensures
      var pass := PassResult(stream, pos, sc);
      if pass.Err? then Run(stream[pos..], sc) == Err(pass.error)
      else pos < pass.value.0 <= |stream| && pass.value.1.zeroBlocks <= 2
           && Run(stream[pos..], sc) == Run(stream[pass.value.0..], pass.value.1)
  {
    hide ReadMember;
    if pos + BLOCK <= |stream| {
      var header := stream[pos..pos + BLOCK];
      RestAfter(stream, pos, 0);
      if !AllZero(header) && sc.zeroBlocks == 0 && ReadMember(header, sc).Ok? {
        var m := ReadMember(header, sc).value;
        if pos + BLOCK + m.size + Padding(m.size) <= |stream| {
          RestAfter(stream, pos, m.size);
        }
      }
    }
  }

  method ReadOne(stream: seq<Byte>, pos: nat, sc: Scan) returns (r: Read<(nat, Scan)>)
    requires pos <= |stream| && sc.zeroBlocks < 2
    ensures r == PassResult(stream, pos, sc)
  {
    hide ReadMember, AllZero, Padding, NextBlock, Advance;
    var next := NextBlock(stream, pos);
    var header := stream[pos..next];
    if |header| != BLOCK {
      return Err(TruncatedHeader);
    }
    if AllZero(header) {
      return Ok((next, sc.(zeroBlocks := sc.zeroBlocks + 1)));
    }
    if sc.zeroBlocks > 0 {
      return Err(IncompleteEnd);
    }
    var m :- ReadMember(header, sc);
    var end := next + m.size + Padding(m.size);
    if end > |stream| {
      return Err(TruncatedBody);
    }
    var body := stream[next..next + m.size];
    return Ok((end, Advance(sc, m, body)));
  }

  /** The scan as the program makes it, checking the tail block by block as well. */
  method PreflightArchiveHeaders(stream: seq<Byte>) returns (r: Read<Preflight>)
    ensures r == Run(stream, START)
  {
    var pos, sc := 0, START;
    assert stream[0..] == stream;
    hide Run, AllZero, NextBlock, PassResult;
    while true
      invariant pos <= |stream| && sc.zeroBlocks <= 2
      invariant Run(stream[pos..], sc) == Run(stream, START)
      decreases |stream| - pos
    {
      if sc.zeroBlocks == 2 {
        TailStep(stream, pos, sc);
        var next := NextBlock(stream, pos);
        var header := stream[pos..next];
        if header == [] {
          break;
        }
        if !AllZero(header) {
          return Err(NonzeroAfterEnd);
        }
        pos := next;
      } else {
        PassIsRun(stream, pos, sc);
        var read :- ReadOne(stream, pos, sc);
        pos, sc := read.0, read.1;
      }
    }
    RunAtEnd(sc);
    assert stream[pos..] == [];
    if sc.manifest.None? {
      return Err(NoManifest);
    }
    if sc.names == [] || sc.names[|sc.names| - 1] != MANIFEST {
      return Err(ManifestNotLast);
    }
    return Ok(Preflight(sc.names, sc.manifest.value));
  }

  lemma RunAtEnd(sc: Scan)
    requires sc.zeroBlocks == 2
    ensures Run([], sc) == Finish(sc)
  {
  }
}
