/** An alias that the program accepts and nothing reaches. */
module ArchiveDetour {
  // An archive with one alias whose link passes through a name that is not there: "x/../f".

  import opened Bytes
  import opened Sorting
  import opened TarReader
  import opened ArchiveManifest
  import opened ArchiveExtract
  import opened ArchiveLinks

  const FILE: Path := PRIVATE_PATH + [Ascii("f")]
  const ALIAS: Path := PRIVATE_PATH + [Ascii("a")]
  const DETOUR: seq<Byte> := Ascii("x/../f")

  const SMALL: Manifest := Manifest([PRIVATE_PATH], [(FILE, 0)], [(ALIAS, FILE)])

  const SMALL_MEMBERS: seq<Entry> := [
    Entry(OPT_PATH, Directory, 0, []), Entry(PRIVATE_PATH, Directory, 0, []), Entry(FILE, Regular, 0, []),
    Entry(ALIAS, Alias, 0, DETOUR), Entry(MANIFEST_PATH, Regular, 0, [])]

  lemma SortOfOne<T>(x: T, less: (T, T) -> bool)
    ensures Sort([x], less) == [x]
  {
    assert [x][1..] == [];
  }

  lemma SmallNames()
    ensures ExpectedNames(SMALL) == [OPT_PATH, PRIVATE_PATH, FILE, ALIAS, MANIFEST_PATH]
    ensures MemberPaths(SMALL_MEMBERS) == ExpectedNames(SMALL)
    ensures Distinct(ExpectedNames(SMALL))
  {
    assert |OPT_PATH| == 1 && |PRIVATE_PATH| == 2 && |FILE| == 3 && |ALIAS| == 3 && |MANIFEST_PATH| == 1;
    assert FILE[2] == Ascii("f") && ALIAS[2] == Ascii("a") && Ascii("f")[0] != Ascii("a")[0];
    assert |OPT| == 3 && |MANIFEST| == 19;
    assert OPT_PATH[0] == OPT && MANIFEST_PATH[0] == MANIFEST;
    hide FILE, ALIAS, PRIVATE_PATH, OPT_PATH, MANIFEST_PATH, Ascii;
    assert Without(SMALL.directories, OPT_PATH) == [PRIVATE_PATH] by {
      assert SMALL.directories[1..] == [];
    }
    assert Paths(SMALL.regulars) == [FILE] && Paths(SMALL.aliases) == [ALIAS];
    SortOfOne(PRIVATE_PATH, BY_DEPTH);
    SortOfOne(FILE, BY_TEXT);
    SortOfOne(ALIAS, BY_TEXT);
  }

  lemma SmallPaths()
    ensures SafePath(PRIVATE_PATH) && SafePath(FILE) && SafePath(ALIAS)
  {
    PartsAreSafe();
    hide SafePart, Ascii;
  }

  lemma PartsAreSafe()
    ensures forall part | part in {OPT, Ascii("nebular-private"), Ascii("f"), Ascii("a")} ::
      SafePart(part) && 47 !in part && 92 !in part
  {
    PartIsSafe("opt");
    PartIsSafe("nebular-private");
    PartIsSafe("f");
    PartIsSafe("a");
  }

  lemma PartIsSafe(text: string)
    requires text in {"opt", "nebular-private", "f", "a"}
    ensures SafePart(Ascii(text)) && 47 !in Ascii(text) && 92 !in Ascii(text)
  {
    var part := Ascii(text);
    assert Lower(part)[0] == part[0];
    assert part[0] in {111, 110, 102, 97};
    assert forall i | 0 <= i < |text| :: text[i] != '/' && text[i] != '\\';
  }

  lemma SmallShapes()
    ensures OPT_PATH != PRIVATE_PATH && OPT_PATH != FILE && OPT_PATH != ALIAS && FILE != ALIAS
    ensures PRIVATE_PATH != FILE && PRIVATE_PATH != ALIAS && PRIVATE_PATH < FILE
    ensures MANIFEST_PATH !in {OPT_PATH, PRIVATE_PATH, FILE, ALIAS}
    ensures |OPT_PATH| == 1 && |PRIVATE_PATH| == 2 && |FILE| == 3 && |ALIAS| == 3 && |MANIFEST_PATH| == 1
    ensures FILE[..1] == ALIAS[..1] == PRIVATE_PATH[..1] == OPT_PATH && FILE[..2] == ALIAS[..2] == PRIVATE_PATH
    ensures Parent(ALIAS) == PRIVATE_PATH
  {
    assert FILE[2] == Ascii("f") && ALIAS[2] == Ascii("a") && Ascii("f")[0] != Ascii("a")[0];
    assert |OPT| == 3 && |MANIFEST| == 19 && OPT_PATH[0] == OPT && MANIFEST_PATH[0] == MANIFEST;
    assert PRIVATE_PATH[0] == OPT;
    hide Ascii, MANIFEST, OPT;
  }

  lemma SmallRows()
    ensures AllRows(SMALL) == [(PRIVATE_PATH, DirectoryRow), (FILE, RegularRow(0)), (ALIAS, AliasRow(FILE))]
    ensures Distinct(Paths(AllRows(SMALL)))
    ensures RowMap(AllRows(SMALL)) == map[PRIVATE_PATH := DirectoryRow, FILE := RegularRow(0), ALIAS := AliasRow(FILE)]
  {
    SmallShapes();
    hide FILE, ALIAS, PRIVATE_PATH;
    var rows := AllRows(SMALL);
    assert rows == [(PRIVATE_PATH, DirectoryRow), (FILE, RegularRow(0)), (ALIAS, AliasRow(FILE))];
    assert Paths(rows) == [PRIVATE_PATH, FILE, ALIAS];
    RowMapAt(rows, 0);
    RowMapAt(rows, 1);
    RowMapAt(rows, 2);
    hide RowMap;
    assert RowMap(rows).Keys == {PRIVATE_PATH, FILE, ALIAS};
  }

  lemma SmallRowsAreOk()
    ensures RowsOk(SMALL)
  {
    SmallNames();
    SmallPaths();
    SmallRows();
    hide FILE, ALIAS, PRIVATE_PATH, Paths, SafePath, ExpectedNames, Distinct, AllRows, RowMap;
    assert TotalBytes(SMALL.regulars[..0]) == 0 && TotalBytes(SMALL.regulars) == 0;
  }

  lemma SmallMembersAreOk(i: nat)
    requires i < 5
    ensures MemberOk(RowMap(AllRows(SMALL)), SMALL_MEMBERS[i], 0)
  {
    SmallShapes();
    SmallRows();
    hide FILE, ALIAS, PRIVATE_PATH, OPT_PATH, MANIFEST_PATH, AllRows, RowMap, DETOUR;
    var e := SMALL_MEMBERS[i];
    forall k | 0 < k < |e.path|
      ensures IsDirectory(RowMap(AllRows(SMALL)), e.path[..k])
    {
      assert k == 1 || k == 2;
    }
  }

  lemma SplitThree(a: seq<Byte>, b: seq<Byte>, c: seq<Byte>)
    requires 47 !in a && 47 !in b && 47 !in c
    ensures Split(a + [47] + b + [47] + c, 47) == [a, b, c]
  {
    SplitPiece(a, 47, b + [47] + c);
    SplitPiece(b, 47, c);
    SplitPiece(c, 47, []);
    hide Split;
    assert a + [47] + b + [47] + c == a + [47] + (b + [47] + c);
  }

  lemma DetourBytes()
    ensures DETOUR == Ascii("x") + [47] + DOT_DOT + [47] + Ascii("f")
    ensures Ascii("x") == [120] && Ascii("f") == [102] && Ascii("a") == [97]
    ensures DETOUR != [] && DETOUR[0] == 120 && 92 !in DETOUR
  {
    assert DETOUR == [120, 47, 46, 46, 47, 102];
  }

  lemma DetourParts()
    ensures Split(DETOUR, 47) == [Ascii("x"), DOT_DOT, Ascii("f")]
    ensures DETOUR != [] && DETOUR[0] != 47 && 92 !in DETOUR
    ensures Ascii("x") !in {[], DOT, DOT_DOT} && Ascii("f") !in {[], DOT, DOT_DOT}
    ensures Ascii("x") != Ascii("f") && Ascii("x") != Ascii("a")
  {
    DetourBytes();
    hide DETOUR, Ascii, Split;
    SplitThree(Ascii("x"), DOT_DOT, Ascii("f"));
  }

  lemma DetourLeads()
    ensures Hop(ALIAS, DETOUR) == FILE
  {
    DetourParts();
    SmallShapes();
    var x := Ascii("x");
    hide Ascii, DETOUR, Normalize;
    var rest: seq<seq<Byte>> := [x, DOT_DOT, Ascii("f")];
    assert rest == [x] + [DOT_DOT] + [Ascii("f")];
    NormalizeJoins(PRIVATE_PATH, [x] + [DOT_DOT], [Ascii("f")]);
    NormalizeJoins(PRIVATE_PATH, [x], [DOT_DOT]);
    OneStep(PRIVATE_PATH, x);
    OneStep(PRIVATE_PATH + [x], DOT_DOT);
    OneStep(PRIVATE_PATH, Ascii("f"));
    assert (PRIVATE_PATH + [x])[..|PRIVATE_PATH|] == PRIVATE_PATH;
    hide PRIVATE_PATH;
  }

  lemma SmallHops()
    ensures Hops(SMALL_MEMBERS) == map[ALIAS := FILE]
  {
    DetourLeads();
    SmallShapes();
    hide FILE, ALIAS, PRIVATE_PATH, OPT_PATH, MANIFEST_PATH, DETOUR, Hop;
    var es := SMALL_MEMBERS;
    assert es[..5] == es && es[..5][..4] == es[..4] && es[..4][..3] == es[..3] && es[..3][..2] == es[..2];
    assert es[..2][..1] == es[..1] && es[..1][..0] == [];
    assert Hops(es[..3]) == map[];
    assert Hops(es[..4]) == map[ALIAS := FILE];
  }

  lemma SmallAliasIsOk()
    ensures AliasOk(RowMap(AllRows(SMALL)), Hops(SMALL_MEMBERS), SMALL_MEMBERS[3])
  {
    SmallHops();
    SmallRows();
    SmallShapes();
    DetourParts();
    hide FILE, ALIAS, PRIVATE_PATH, OPT_PATH, MANIFEST_PATH, DETOUR, Hops, AllRows, RowMap;
  }

  lemma SmallIsAccepted()
    ensures |SMALL_MEMBERS| == 5 && Accepted(SMALL, SMALL_MEMBERS, 0)
    ensures SMALL_MEMBERS[3].kind == Alias && SMALL_MEMBERS[3].path == ALIAS
  {
    SmallRowsAreOk();
    SmallNames();
    SmallAliasIsOk();
    assert forall i | 0 <= i < 5 && SMALL_MEMBERS[i].kind == Alias :: i == 3;
    hide SMALL, RowsOk, MemberOk, AliasOk, ExpectedNames, MemberPaths, AllRows, RowMap, DETOUR, Hops;
    hide FILE, ALIAS, PRIVATE_PATH, OPT_PATH, MANIFEST_PATH, Distinct;
    forall i | 0 <= i < |SMALL_MEMBERS|
      ensures MemberOk(RowMap(AllRows(SMALL)), SMALL_MEMBERS[i], 0)
    {
      SmallMembersAreOk(i);
    }
  }

  lemma NoSuchPlace(place: Path)
    requires place == PRIVATE_PATH + [Ascii("x")]
    ensures place != [] && forall e | e in SMALL_MEMBERS :: e.path != place
  {
    DetourParts();
    SmallShapes();
    assert place[2] == Ascii("x") && FILE[2] == Ascii("f") && ALIAS[2] == Ascii("a");
    hide FILE, ALIAS, PRIVATE_PATH, OPT_PATH, MANIFEST_PATH, DETOUR, Ascii, Split;
    assert |place| == 3;
  }

  /** The link is there, and the name it passes through is not. */
  lemma SmallTree()
    requires Accepted(SMALL, SMALL_MEMBERS, 0)
    ensures
      var tree := TreeOf(SMALL_MEMBERS, 0);
      ALIAS in tree && tree[ALIAS] == LinkNode(DETOUR) && PRIVATE_PATH + [Ascii("x")] !in tree
  {
    hide Accepted, TreeOf;
    TreeIsMembers(SMALL, SMALL_MEMBERS, 0);
    NoSuchPlace(PRIVATE_PATH + [Ascii("x")]);
    assert SMALL_MEMBERS[3] in SMALL_MEMBERS;
    hide ALIAS, FILE, PRIVATE_PATH, DETOUR, Ascii;
  }

  lemma PassesMissing(tree: Tree, hops: map<Path, Path>, p: Path, part: seq<Byte>, rest: seq<seq<Byte>>)
    requires p in hops && p in tree && tree[p].LinkNode? && p != []
    requires Split(tree[p].link, 47) == [part, DOT_DOT] + rest && IsName(part) && Parent(p) + [part] !in tree
    ensures !ChainTurns(tree, hops, p)
  {
    hide Normalize, Split;
    var parts := Split(tree[p].link, 47);
    assert After(hops, p, 0) == p;
    assert parts[..1] == [part] && !IsName(parts[1]);
    OneStep(Parent(p), part);
    assert Normalize(Parent(p), parts[..1]) == Parent(p) + [part];
  }

  /** The program accepts an archive whose alias passes a name that is not there, and nothing reaches its file. */
  lemma DetourIsAccepted()
    ensures |SMALL_MEMBERS| == 5 && Accepted(SMALL, SMALL_MEMBERS, 0) && SMALL_MEMBERS[3].kind == Alias
    ensures forall fuel: nat :: Reach(TreeOf(SMALL_MEMBERS, 0), [], SMALL_MEMBERS[3].path, fuel).None?
  {
    hide *;
    SmallIsAccepted();
    SmallTree();
    SmallHops();
    SmallShapes();
    DetourParts();
    DetourPasses();
    PassesMissing(TreeOf(SMALL_MEMBERS, 0), Hops(SMALL_MEMBERS), ALIAS, Ascii("x"), [Ascii("f")]);
    LinksReachCanonical(SMALL, SMALL_MEMBERS, 0, 3);
  }

  lemma DetourPasses()
    ensures Split(DETOUR, 47) == [Ascii("x"), DOT_DOT] + [Ascii("f")] && IsName(Ascii("x"))
  {
    DetourParts();
    hide DETOUR, Ascii, Split;
  }
}
