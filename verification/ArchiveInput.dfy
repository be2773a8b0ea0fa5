/** The runtime input, from bytes to tree. */
module ArchiveInput {
  // A byte stream that the preflight accepts, and the tree that is extracted from it.

  import opened Options
  import opened Bytes
  import opened Sorting
  import opened TarReader
  import opened ArchiveManifest
  import opened ArchiveExtract
  import TarWriter

  /** Member names as the archive spells them. */
  function Spelled(paths: seq<Path>): (names: seq<seq<Byte>>)
    ensures |names| == |paths|
  {
    seq(|paths|, i requires 0 <= i < |paths| => JoinPath(paths[i]))
  }

  /** The preflight's names and manifest are those that the manifest's own rows lead to. */
  ghost predicate Agrees(stream: seq<Byte>, p: Preflight, m: Manifest, members: seq<Entry>) {
    && Run(stream, START) == Ok(p)
    && Accepted(m, members, |p.manifest|)
    && p.names == Spelled(ExpectedNames(m))
  }

  lemma PreflightNamesDiffer(stream: seq<Byte>, p: Preflight)
    requires Run(stream, START) == Ok(p)
    ensures Distinct(p.names)
  {
    assert TarWriter.GoodNames(START.names);
    hide Run;
    var k := TarWriter.AcceptedArchive(stream, START);
  }

  lemma SpelledApart(paths: seq<Path>)
    requires Distinct(Spelled(paths))
    ensures forall a, b | a in paths && b in paths && JoinPath(a) == JoinPath(b) :: a == b
  {
    hide JoinPath;
    forall a, b | a in paths && b in paths && JoinPath(a) == JoinPath(b)
      ensures a == b
    {
      var i :| 0 <= i < |paths| && paths[i] == a;
      var j :| 0 <= j < |paths| && paths[j] == b;
      assert Spelled(paths)[i] == Spelled(paths)[j];
    }
  }

  /** Paths in an agreed archive are spelled differently. */
  lemma SpellingIsUnique(stream: seq<Byte>, p: Preflight, m: Manifest, members: seq<Entry>)
    requires Agrees(stream, p, m, members)
    ensures forall a, b | a in ExpectedNames(m) && b in ExpectedNames(m) && JoinPath(a) == JoinPath(b) :: a == b
  {
    hide Run, Accepted, Spelled, Distinct, ExpectedNames;
    PreflightNamesDiffer(stream, p);
    SpelledApart(ExpectedNames(m));
  }

  lemma NoNameIsEmpty(m: Manifest, members: seq<Entry>, manifestSize: nat)
    requires Accepted(m, members, manifestSize)
    ensures [] !in ExpectedNames(m)
  {
    assert MemberPaths(members) == ExpectedNames(m);
    hide Accepted, ExpectedNames;
    forall i | 0 <= i < |members|
      ensures MemberPaths(members)[i] != []
    {
      ParentIsMember(m, members, manifestSize, members[i]);
    }
  }

  lemma TreePaths(m: Manifest, members: seq<Entry>, manifestSize: nat)
    requires Accepted(m, members, manifestSize)
    ensures
      var r := CreateAll(EMPTY_TREE, CreationOrder(members, manifestSize));
      && r.Some?
      && (forall path :: path in r.value <==> path == [] || path in ExpectedNames(m))
      && MANIFEST_PATH in r.value && r.value[MANIFEST_PATH] == FileNode(manifestSize)
  {
    AcceptedExtracts(m, members, manifestSize);
    var e := ManifestMember(m, members, manifestSize);
    assert MemberPaths(members) == ExpectedNames(m);
    hide Accepted, CreateAll, CreationOrder, ExpectedNames;
    PathsOfElements(members);
    assert e in Elements(members);
    hide Elements, PathsOf, MemberPaths;
  }

  lemma PathsOfElements(members: seq<Entry>)
    ensures forall path :: path in PathsOf(Elements(members)) <==> path in MemberPaths(members)
  {
    forall path
      ensures path in PathsOf(Elements(members)) <==> path in MemberPaths(members)
    {
      if path in MemberPaths(members) {
        var i :| 0 <= i < |members| && MemberPaths(members)[i] == path;
        assert members[i] in Elements(members);
      }
      if f :| f in Elements(members) && f.path == path {
        var i :| 0 <= i < |members| && members[i] == f;
        assert MemberPaths(members)[i] == path;
      }
    }
  }

  /**
   The extraction of an agreed archive succeeds, and its tree has one path for each name the preflight
   read from the bytes, and no other; the manifest is there with the size of the bytes read.
   */
  lemma PreflightedTree(stream: seq<Byte>, p: Preflight, m: Manifest, members: seq<Entry>)
    requires Agrees(stream, p, m, members)
    ensures
      var r := CreateAll(EMPTY_TREE, CreationOrder(members, |p.manifest|));
      && r.Some?
      && (forall path | path in r.value && path != [] :: JoinPath(path) in p.names)
      && (forall n | n in p.names :: exists path :: path in r.value && path != [] && JoinPath(path) == n)
      && (forall a, b | a in r.value && b in r.value && a != [] && b != [] && JoinPath(a) == JoinPath(b) :: a == b)
      && MANIFEST_PATH in r.value && r.value[MANIFEST_PATH] == FileNode(|p.manifest|)
  {
    TreePaths(m, members, |p.manifest|);
    SpellingIsUnique(stream, p, m, members);
    NoNameIsEmpty(m, members, |p.manifest|);
    hide Run, Accepted, CreateAll, CreationOrder, JoinPath, ExpectedNames;
    SpelledHas(ExpectedNames(m));
    hide Spelled;
  }

  lemma SpelledHas(paths: seq<Path>)
    ensures forall path | path in paths :: JoinPath(path) in Spelled(paths)
    ensures forall n | n in Spelled(paths) :: exists path :: path in paths && JoinPath(path) == n
  {
    hide JoinPath;
    forall path | path in paths
      ensures JoinPath(path) in Spelled(paths)
    {
      var i :| 0 <= i < |paths| && paths[i] == path;
      assert Spelled(paths)[i] == JoinPath(path);
    }
    forall n | n in Spelled(paths)
      ensures exists path :: path in paths && JoinPath(path) == n
    {
      var i :| 0 <= i < |paths| && Spelled(paths)[i] == n;
      assert paths[i] in paths;
    }
  }
}
