/** The import graph of an authentic payload. */
module PayloadGraph {
  import opened Options
  import opened Bytes
  import opened ModuleSearch
  import opened ImportMeaning
  import Tree = PayloadTree

  // ------------------------------------------------------------ one name for one path

  lemma {:induction false} UnderShifts(prefix: Name, n: Name, rest: seq<Name>)
    ensures Tree.Under(Tree.Child(prefix, n), rest) == prefix + [SLASH] + Tree.Under(n, rest)
    decreases |rest|
  {
    if rest != [] {
      assert Tree.Child(Tree.Child(prefix, n), rest[0]) == Tree.Child(prefix, Tree.Child(n, rest[0]));
      UnderShifts(prefix, Tree.Child(n, rest[0]), rest[1..]);
    }
  }

  /** A path without backslashes is declared under the name that leads to it. */
  lemma {:induction false} NameLeadsThere(p: Path)
    requires p != [] && forall n | n in p :: BACKSLASH !in n
    ensures NameOf(p) == Tree.Under(p[0], p[1..])
    decreases |p|
  {
    assert p[0] in p && Slashed(p[0]) == p[0];
    if |p| > 1 {
      NameLeadsThere(p[1..]);
      UnderShifts(p[0], p[1], p[2..]);
      assert p[1..][1..] == p[2..];
    }
  }

  // ------------------------------------------------------------ what the search reads

  /** The text of the module file at a path, if there is one of an admitted size. */
  function TextAt(tree: Tree.Node, p: Path): Option<seq<Byte>> {
    if UnderDist(p) && Tree.HasFile(tree, p[1..]) then
      var content := Tree.Lookup(tree, p[1..]).value.content;
      if 0 < |content| <= Tree.MAX_MEMBER_BYTES && ValidUtf8(content) then Some(content) else None
    else None
  }

  function Declared(members: seq<Tree.Member>): set<Name> {
    set m | m in members :: m.path
  }

  /** What the search is given: the declared names, and the specifiers in the text of every readable one. */
  function PayloadOf(tree: Tree.Node, members: seq<Tree.Member>): Payload {
    var readable := set q | q in Declared(members) && TextAt(tree, Split(q, SLASH)).Some? :: Split(q, SLASH);
    Payload(Declared(members), map p | p in readable :: Specifiers(TextAt(tree, p).value))
  }

  /** The path of a file in an authentic payload is that of one member. */
  lemma FileIsDeclared(
      tree: Tree.Node, members: seq<Tree.Member>, inventory: seq<Byte>, sha: seq<Byte> -> seq<Byte>, p: Path)
      returns (m: Tree.Member)
    requires Tree.Authentic(tree, members, inventory, sha) && TextAt(tree, p).Some?
    ensures m in members && m.path == NameOf(p) && Split(m.path, SLASH) == p && m.sha256 == sha(TextAt(tree, p).value)
  {
    var parts := p[1..];
    Tree.AuthenticFiles(tree, members, inventory, sha, parts);
    m :| m in members && m.path == Tree.Under(Tree.ROOT, parts)
      && m.size == |Tree.Lookup(tree, parts).value.content| && m.sha256 == sha(Tree.Lookup(tree, parts).value.content);
    PathOfFile(tree, parts) by {
      assert Tree.PayloadOk(tree);
    }
    hide *;
    assert p == [Tree.ROOT] + parts by {
      DistIsRoot(tree, p);
    }
  }

  lemma DistIsRoot(tree: Tree.Node, p: Path)
    requires TextAt(tree, p).Some?
    ensures p == [Tree.ROOT] + p[1..]
  {
    assert p == [p[0]] + p[1..];
  }

  lemma PathOfFile(tree: Tree.Node, parts: seq<Name>)
    requires Tree.PayloadOk(tree) && Tree.HasFile(tree, parts)
    ensures Split(Tree.Under(Tree.ROOT, parts), SLASH) == [Tree.ROOT] + parts
    ensures NameOf([Tree.ROOT] + parts) == Tree.Under(Tree.ROOT, parts)
  {
    Tree.PayloadEntryOk(tree);
    Tree.FileIsListed(tree, Tree.ROOT, 1, parts);
    hide Tree.TreeOk, Tree.HasFile, Tree.IsSegment;
    forall part | part in parts
      ensures SLASH !in part && BACKSLASH !in part
    {
      Tree.SegmentHasNoSlash(part);
    }
    Tree.SplitUnder(Tree.ROOT, parts);
    SplitPiece(Tree.ROOT, SLASH, []);
    NameLeadsThere([Tree.ROOT] + parts);
    assert ([Tree.ROOT] + parts)[1..] == parts;
  }

  /** The search is given exactly the readable module files. */
  lemma SearchReadsFiles(
      tree: Tree.Node, members: seq<Tree.Member>, inventory: seq<Byte>, sha: seq<Byte> -> seq<Byte>, p: Path)
    requires Tree.Authentic(tree, members, inventory, sha)
    ensures p in PayloadOf(tree, members).imports <==> TextAt(tree, p).Some?
    ensures TextAt(tree, p).Some? ==> PayloadOf(tree, members).imports[p] == Specifiers(TextAt(tree, p).value)
  {
    hide Tree.Authentic, TextAt, Split, Specifiers;
    if TextAt(tree, p).Some? {
      var m := FileIsDeclared(tree, members, inventory, sha, p);
    }
  }

  // ------------------------------------------------------------ the closed graph

  /**
   In an authentic payload that the search accepts, every module reachable from the index is a
   declared member with the declared digest, and every relative import in its text names another such
   module: a file of the tree that lies where the specifier's net climb and names lead from the
   importing file's own directory.
   */
  lemma ClosedGraph(
      tree: Tree.Node, members: seq<Tree.Member>, inventory: seq<Byte>, sha: seq<Byte> -> seq<Byte>, p: Path)
      returns (m: Tree.Member)
    requires Tree.Authentic(tree, members, inventory, sha) && Accepted(PayloadOf(tree, members))
    requires Reachable(PayloadOf(tree, members), p)
    ensures TextAt(tree, p).Some? && m in members && m.path == NameOf(p) && m.sha256 == sha(TextAt(tree, p).value)
    ensures forall spec | spec in Specifiers(TextAt(tree, p).value) ::
      var (ups, names) := Net(spec);
      && ups + 1 < |p| && Reachable(PayloadOf(tree, members), p[..|p| - 1 - ups] + names)
      && TextAt(tree, p[..|p| - 1 - ups] + names).Some?
  {
    hide *;
    AcceptedIsSound(PayloadOf(tree, members), p);
    SearchReadsFiles(tree, members, inventory, sha, p);
    m := FileIsDeclared(tree, members, inventory, sha, p);
    forall spec | spec in Specifiers(TextAt(tree, p).value)
      ensures
        var (ups, names) := Net(spec);
        && ups + 1 < |p| && Reachable(PayloadOf(tree, members), p[..|p| - 1 - ups] + names)
        && TextAt(tree, p[..|p| - 1 - ups] + names).Some?
    {
      SpecifierLeads(tree, members, inventory, sha, p, spec);
    }
  }

  lemma SpecifierLeads(
      tree: Tree.Node, members: seq<Tree.Member>, inventory: seq<Byte>, sha: seq<Byte> -> seq<Byte>, p: Path,
      spec: seq<Component>)
    requires Tree.Authentic(tree, members, inventory, sha) && Accepted(PayloadOf(tree, members))
    requires Reachable(PayloadOf(tree, members), p) && TextAt(tree, p).Some?
    requires spec in Specifiers(TextAt(tree, p).value)
    ensures
      var (ups, names) := Net(spec);
      && ups + 1 < |p| && Reachable(PayloadOf(tree, members), p[..|p| - 1 - ups] + names)
      && TextAt(tree, p[..|p| - 1 - ups] + names).Some?
  {
    hide *;
    var payload := PayloadOf(tree, members);
    AcceptedIsSound(payload, p);
    SearchReadsFiles(tree, members, inventory, sha, p);
    FilesAreBelow(tree, members, inventory, sha, p);
    SoundImports(payload, p, spec);
    ResolveIsNet(Directory(p), spec);
    var (ups, names) := Net(spec);
    var q := Resolve(Directory(p), spec).value;
    assert q == p[..|p| - 1 - ups] + names by {
      assert p[..|p| - 1][..|p| - 1 - ups] == p[..|p| - 1 - ups];
    }
    ResolvedIsImported(payload, p, spec, q);
    ImportIsReachable(payload, p, q);
    SearchReadsFiles(tree, members, inventory, sha, q);
    AcceptedIsSound(payload, q);
  }

  lemma ResolvedIsImported(payload: Payload, p: Path, spec: seq<Component>, q: Path)
    requires p in payload.imports && spec in payload.imports[p] && Resolve(Directory(p), spec) == Some(q)
    ensures Imports(payload, p, q)
  {
  }

  lemma SoundImports(payload: Payload, p: Path, spec: seq<Component>)
    requires Sound(payload, p) && spec in payload.imports[p]
    ensures Resolve(Directory(p), spec).Some?
  {
  }

  lemma AcceptedIsSound(payload: Payload, p: Path)
    requires Accepted(payload) && Reachable(payload, p)
    ensures Sound(payload, p) && p in payload.imports
  {
  }

  /** A file lies below `dist`, in a directory that is `dist` or lies below it. */
  lemma FilesAreBelow(
      tree: Tree.Node, members: seq<Tree.Member>, inventory: seq<Byte>, sha: seq<Byte> -> seq<Byte>, p: Path)
    requires Tree.Authentic(tree, members, inventory, sha) && TextAt(tree, p).Some?
    ensures |p| > 1 && UnderDist(Directory(p)) && Directory(p) == p[..|p| - 1]
  {
    assert Tree.PayloadOk(tree);
    hide Tree.Authentic;
  }

  /**
   A line of such a module's text that imports from `names` under the directory `j` levels above the
   module's own names a file that is there, and that is such a module again.
  */
  lemma ImportedFileIsThere(
      tree: Tree.Node, members: seq<Tree.Member>, inventory: seq<Byte>, sha: seq<Byte> -> seq<Byte>,
      d: Path, f: Name, line: seq<Byte>, j: nat, names: seq<Name>)
    requires Tree.Authentic(tree, members, inventory, sha) && Accepted(PayloadOf(tree, members))
    requires Reachable(PayloadOf(tree, members), d + [f]) && TextAt(tree, d + [f]).Some?
    requires line in Split(TextAt(tree, d + [f]).value, 10) && forall i | 0 <= i < |names| :: IsName(names[i])
    requires Written(Dots(j) + names) in LineSpecifiers(line)
    ensures j < |d| && TextAt(tree, d[..|d| - j] + names).Some?
    ensures Reachable(PayloadOf(tree, members), d[..|d| - j] + names)
  {
    hide *;
    var text := TextAt(tree, d + [f]).value;
    SpecifierOfLine(Split(text, 10), line, Written(Dots(j) + names));
    SpecifierIsParsed(text, Written(Dots(j) + names));
    WrittenNet(j, names);
    SpecifierLeads(tree, members, inventory, sha, d + [f], ComponentsOf(Written(Dots(j) + names)));
    assert (d + [f])[..|d| - j] == d[..|d| - j];
  }

  lemma SpecifierIsParsed(text: seq<Byte>, spec: seq<Byte>)
    requires spec in LinesSpecifiers(Split(text, 10))
    ensures ComponentsOf(spec) in Specifiers(text)
  {
    hide LinesSpecifiers, Split, ComponentsOf;
    var specs := LinesSpecifiers(Split(text, 10));
    var i :| 0 <= i < |specs| && specs[i] == spec;
    assert Specifiers(text)[i] == ComponentsOf(spec);
  }

  /** The comparison with the manifest, then the search. */
  method VerifyPayload(tree: Tree.Node, members: seq<Tree.Member>, inventory: seq<Byte>, sha: seq<Byte> -> seq<Byte>)
      returns (ok: bool)
    ensures ok <==> Tree.Authentic(tree, members, inventory, sha) && Accepted(PayloadOf(tree, members))
  {
    hide *;
    ok := Tree.VerifyMembers(tree, members, inventory, sha);
    if ok {
      ok := VerifyReachability(PayloadOf(tree, members));
    }
  }
}
