/** The manifest of the runtime archive. */
module ArchiveManifest {
  /*
   The authenticated manifest of the runtime-input archive, and the agreement between it and the
   archive's own member list. A path is its sequence of parts.
  */

  import opened Bytes
  import opened Sorting
  import opened TarReader

  const MAX_REGULARS: nat := 512
  const MAX_ALIASES: nat := 512
  const MAX_DIRECTORIES: nat := 512

  type Path = seq<seq<Byte>>

  const OPT_PATH: Path := [OPT]
  const PRIVATE_PATH: Path := [OPT, Ascii("nebular-private")]
  const MANIFEST_PATH: Path := [MANIFEST]

  datatype Row = DirectoryRow | RegularRow(bytes: nat) | AliasRow(canonical: Path)

  /** The rows of the manifest, list by list, each in file order. */
  datatype Manifest = Manifest(directories: seq<Path>, regulars: seq<(Path, nat)>, aliases: seq<(Path, Path)>)

  datatype Kind = Directory | Regular | Alias | Other

  /** One member as the archive library reports it. */
  datatype Entry = Entry(path: Path, kind: Kind, size: nat, link: seq<Byte>)

  predicate SafePath(p: Path) {
    && (forall part | part in p :: SafePart(part) && 47 !in part && 92 !in part)
    && (p == OPT_PATH || PRIVATE_PATH <= p)
  }

  // ------------------------------------------------------------ the expected member list

  function JoinPath(p: Path): seq<Byte> {
    if p == [] then [] else if |p| == 1 then p[0] else p[0] + [47] + JoinPath(p[1..])
  }

  const BY_TEXT: (Path, Path) -> bool := (a, b) => Less(JoinPath(a), JoinPath(b))
  const BY_DEPTH: (Path, Path) -> bool := (a, b) => |a| < |b| || (|a| == |b| && Less(JoinPath(a), JoinPath(b)))

  lemma ByDepthIsTransitive(a: Path, b: Path, c: Path)
    requires BY_DEPTH(a, b) && BY_DEPTH(b, c)
    ensures BY_DEPTH(a, c)
  {
    hide Less, JoinPath;
    if Less(JoinPath(a), JoinPath(b)) && Less(JoinPath(b), JoinPath(c)) {
      LessIsTransitive(JoinPath(a), JoinPath(b), JoinPath(c));
    }
  }

  /** Whatever is before `c` is before `b`, or `b` is before `c`. */
  lemma ByDepthDivides(a: Path, b: Path, c: Path)
    requires BY_DEPTH(a, c)
    ensures BY_DEPTH(a, b) || BY_DEPTH(b, c)
  {
    hide Less, JoinPath;
    var x, y, z := JoinPath(a), JoinPath(b), JoinPath(c);
    LessIsTotal(x, y);
    LessIsTotal(y, z);
    if Less(y, x) && Less(x, z) {
      LessIsTransitive(y, x, z);
    }
  }

  lemma ByDepthIsWeakOrder()
    ensures WeakOrder(BY_DEPTH)
  {
    forall a: Path, b: Path, c: Path
      ensures BY_DEPTH(a, b) && BY_DEPTH(b, c) ==> BY_DEPTH(a, c)
      ensures BY_DEPTH(a, c) ==> BY_DEPTH(a, b) || BY_DEPTH(b, c)
      ensures !BY_DEPTH(a, a)
    {
      hide Less, JoinPath;
      LessIsTotal(JoinPath(a), JoinPath(a));
      if BY_DEPTH(a, b) && BY_DEPTH(b, c) {
        ByDepthIsTransitive(a, b, c);
      }
      if BY_DEPTH(a, c) {
        ByDepthDivides(a, b, c);
      }
    }
  }

  function Paths<T>(rows: seq<(Path, T)>): (paths: seq<Path>)
    ensures |paths| == |rows|
  {
    seq(|rows|, i requires 0 <= i < |rows| => rows[i].0)
  }

  function Without(paths: seq<Path>, p: Path): (rest: seq<Path>)
    ensures forall q :: q in rest <==> q in paths && q != p
  {
    if paths == [] then []
    else if paths[0] == p then Without(paths[1..], p)
    else [paths[0]] + Without(paths[1..], p)
  }

  function SortedDirectories(m: Manifest): seq<Path> {
    Sort(Without(m.directories, OPT_PATH), BY_DEPTH)
  }

  function SortedRegulars(m: Manifest): seq<Path> {
    Sort(Paths(m.regulars), BY_TEXT)
  }

  function SortedAliases(m: Manifest): seq<Path> {
    Sort(Paths(m.aliases), BY_TEXT)
  }

  function ExpectedNames(m: Manifest): seq<Path> {
    [OPT_PATH] + SortedDirectories(m) + SortedRegulars(m) + SortedAliases(m) + [MANIFEST_PATH]
  }

  function TotalBytes(regulars: seq<(Path, nat)>): nat {
    if regulars == [] then 0 else TotalBytes(regulars[..|regulars| - 1]) + regulars[|regulars| - 1].1
  }

  function AllRows(m: Manifest): seq<(Path, Row)> {
    seq(|m.directories|, i requires 0 <= i < |m.directories| => (m.directories[i], DirectoryRow))
    + seq(|m.regulars|, i requires 0 <= i < |m.regulars| => (m.regulars[i].0, RegularRow(m.regulars[i].1)))
    + seq(|m.aliases|, i requires 0 <= i < |m.aliases| => (m.aliases[i].0, AliasRow(m.aliases[i].1)))
  }

  /** What a manifest must satisfy on its own. */
  predicate RowsOk(m: Manifest) {
    && |m.directories| <= MAX_DIRECTORIES && |m.regulars| <= MAX_REGULARS && |m.aliases| <= MAX_ALIASES
    && (forall i | 0 <= i < |AllRows(m)| :: SafePath(AllRows(m)[i].0))
    && Distinct(Paths(AllRows(m)))
    && PRIVATE_PATH in m.directories
    && Distinct(ExpectedNames(m)) && |ExpectedNames(m)| <= MAX_MEMBERS
    && (forall i | 0 <= i < |m.regulars| :: m.regulars[i].1 <= MAX_FILE_BYTES)
    && TotalBytes(m.regulars) <= MAX_UNCOMPRESSED_BYTES
  }

  /** Each path with its row. */
  function RowMap(rows: seq<(Path, Row)>): (table: map<Path, Row>)
    ensures forall p :: p in table <==> p in Paths(rows)
  {
    if rows == [] then map[]
    else
      var n := |rows| - 1;
      assert forall p :: p in Paths(rows) <==> p in Paths(rows[..n]) || p == rows[n].0 by {
        assert Paths(rows) == Paths(rows[..n]) + [rows[n].0];
      }
      RowMap(rows[..n])[rows[n].0 := rows[n].1]
  }

  lemma {:induction false} RowMapAt(rows: seq<(Path, Row)>, i: nat)
    requires Distinct(Paths(rows)) && i < |rows|
    ensures rows[i].0 in RowMap(rows) && RowMap(rows)[rows[i].0] == rows[i].1
  {
    var n := |rows| - 1;
    assert Paths(rows)[i] == rows[i].0 && Paths(rows)[n] == rows[n].0;
    if i < n {
      assert Paths(rows[..n]) == Paths(rows)[..n];
      RowMapAt(rows[..n], i);
    }
  }

  lemma DistinctPrefix(rows: seq<(Path, Row)>, i: nat)
    requires i < |rows|
    ensures Paths(rows[..i + 1]) == Paths(rows[..i]) + [rows[i].0]
    ensures Distinct(Paths(rows[..i + 1])) <==> Distinct(Paths(rows[..i])) && rows[i].0 !in Paths(rows[..i])
    ensures Distinct(Paths(rows)) ==> Distinct(Paths(rows[..i + 1]))
    ensures RowMap(rows[..i + 1]) == RowMap(rows[..i])[rows[i].0 := rows[i].1]
  {
    var before, upTo := Paths(rows[..i]), Paths(rows[..i + 1]);
    assert upTo == before + [rows[i].0] && upTo == Paths(rows)[..i + 1];
    assert rows[..i + 1][..i] == rows[..i];
    DistinctAppend(before, rows[i].0);
  }

  method BuildTable(all: seq<(Path, Row)>) returns (ok: bool, rows: map<Path, Row>)
    ensures ok <==> (forall i | 0 <= i < |all| :: SafePath(all[i].0)) && Distinct(Paths(all))
    ensures ok ==> rows == RowMap(all)
  {
    hide SafePath, Distinct, Paths, RowMap;
    rows := map[];
    EmptyTable(all);
    for i := 0 to |all|
      invariant rows == RowMap(all[..i]) && Distinct(Paths(all[..i]))
      invariant forall j | 0 <= j < i :: SafePath(all[j].0)
    {
      DistinctPrefix(all, i);
      if !SafePath(all[i].0) || all[i].0 in rows {
        return false, rows;
      }
      rows := rows[all[i].0 := all[i].1];
    }
    assert all[..|all|] == all;
    ok := true;
  }

  lemma EmptyTable(all: seq<(Path, Row)>)
    ensures RowMap(all[..0]) == map[] && Distinct(Paths(all[..0]))
  {
  }

  method CountBytes(regulars: seq<(Path, nat)>) returns (ok: bool, total: nat)
    ensures ok <==>
      && (forall i | 0 <= i < |regulars| :: regulars[i].1 <= MAX_FILE_BYTES)
      && TotalBytes(regulars) <= MAX_UNCOMPRESSED_BYTES
    ensures ok ==> total == TotalBytes(regulars)
  {
    total := 0;
    for i := 0 to |regulars|
      invariant total == TotalBytes(regulars[..i])
      invariant forall j | 0 <= j < i :: regulars[j].1 <= MAX_FILE_BYTES
    {
      if regulars[i].1 > MAX_FILE_BYTES {
        return false, total;
      }
      assert regulars[..i + 1][..i] == regulars[..i];
      total := total + regulars[i].1;
    }
    assert regulars[..|regulars|] == regulars;
    ok := total <= MAX_UNCOMPRESSED_BYTES;
  }

  /** Builds the row table and the expected member list, or refuses the manifest. */
  method ManifestRows(m: Manifest) returns (ok: bool, rows: map<Path, Row>, names: seq<Path>, regularBytes: nat)
    ensures ok <==> RowsOk(m)
    ensures ok ==> rows == RowMap(AllRows(m)) && names == ExpectedNames(m) && regularBytes == TotalBytes(m.regulars)
  {
    hide SafePath, ExpectedNames, AllRows, Distinct, Paths, RowMap, TotalBytes;
    rows, names, regularBytes := map[], [], 0;
    ok := |m.directories| <= MAX_DIRECTORIES && |m.regulars| <= MAX_REGULARS && |m.aliases| <= MAX_ALIASES;
    if ok {
      ok, rows := BuildTable(AllRows(m));
    }
    if ok && PRIVATE_PATH in m.directories {
      names := ExpectedNames(m);
      ok, regularBytes := CountBytes(m.regulars);
      ok := ok && |names| <= MAX_MEMBERS && Distinct(names);
    } else {
      ok := false;
    }
  }
}
