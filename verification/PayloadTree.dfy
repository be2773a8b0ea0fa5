/** The files of a payload. */
module PayloadTree {
  /*
   The files of a payload: the walk that lists what is under `dist`, the grammar of member paths, and
   the manifest that must name exactly those files.
  */

  import opened Options
  import opened Lists
  import opened Bytes
  import opened Sorting

  type Name = seq<Byte>
  type Path = seq<Byte>

  /** What a directory entry is, without following links. */
  datatype Node =
    | File(content: seq<Byte>)
    | Directory(entries: seq<Entry>)
    | Link
    | Other

  datatype Entry = Entry(name: Name, node: Node)

  const SLASH: Byte := 47
  const BACKSLASH: Byte := 92
  const DOT: Byte := 46
  const MAX_MEMBER_COUNT: nat := 4096
  const MAX_MEMBER_PATH_BYTES: nat := 256
  const MAX_MEMBER_PATH_DEPTH: nat := 16
  const MAX_MEMBER_BYTES: nat := 8 * 1024 * 1024
  const MAX_TOTAL_PAYLOAD_BYTES: nat := 64 * 1024 * 1024

  // ------------------------------------------------------------ names and paths

  predicate IsSegmentChar(b: Byte) {
    48 <= b <= 57 || 65 <= b <= 90 || 97 <= b <= 122 || b == DOT || b == 95 || b == 45
  }

  predicate IsSegment(name: Name) {
    name != [] && name != [DOT] && name != [DOT, DOT] && forall b | b in name :: IsSegmentChar(b)
  }

  function LowerByte(b: Byte): Byte {
    if 65 <= b <= 90 then b + 32 else b
  }

  function Lower(s: seq<Byte>): seq<Byte> {
    seq(|s|, i requires 0 <= i < |s| => LowerByte(s[i]))
  }

  predicate IsMemberPath(path: Path) {
    && path != []
    && |path| <= MAX_MEMBER_PATH_BYTES
    && Ascii("dist/") <= path
    && path[|path| - 1] != SLASH
    && BACKSLASH !in path
    && 2 <= |Split(path, SLASH)| <= MAX_MEMBER_PATH_DEPTH
    && forall segment | segment in Split(path, SLASH) :: IsSegment(segment)
  }

  function Child(prefix: Path, name: Name): Path {
    prefix + [SLASH] + name
  }

  /** The path that leads from `prefix` through these names. */
  function Under(prefix: Path, parts: seq<Name>): Path
    decreases |parts|
  {
    if parts == [] then prefix else Under(Child(prefix, parts[0]), parts[1..])
  }

  // ------------------------------------------------------------ the tree

  /** What the names lead to from `node`, if anything. */
  function Lookup(node: Node, parts: seq<Name>): Option<Node>
    decreases |parts|
  {
    if parts == [] then Some(node)
    else if !node.Directory? then None
    else
      var found := Find(node.entries, parts[0]);
      if found.None? then None else Lookup(found.value, parts[1..])
  }

  function Find(entries: seq<Entry>, name: Name): Option<Node> {
    if entries == [] then None
    else if entries[0].name == name then Some(entries[0].node)
    else Find(entries[1..], name)
  }

  predicate HasFile(node: Node, parts: seq<Name>) {
    Lookup(node, parts).Some? && Lookup(node, parts).value.File?
  }

  /** The names in one directory: well-formed, and different even when case is ignored. */
  predicate NamesOk(entries: seq<Entry>) {
    && (forall e | e in entries :: IsSegment(e.name))
    && forall i, j | 0 <= i < j < |entries| :: Lower(entries[i].name) != Lower(entries[j].name)
  }

  predicate EntryOk(node: Node, path: Path, depth: nat)
    decreases node, 1
  {
    |path| <= MAX_MEMBER_PATH_BYTES && (node.File? || (node.Directory? && TreeOk(node, path, depth + 1)))
  }

  /** A directory the walk accepts at this depth. */
  predicate TreeOk(node: Node, prefix: Path, depth: nat)
    decreases node, 0
  {
    && depth <= MAX_MEMBER_PATH_DEPTH
    && node.Directory?
    && NamesOk(node.entries)
    && node.entries != []
    && forall e | e in node.entries :: EntryOk(e.node, Child(prefix, e.name), depth)
  }

  predicate EachOk(entries: seq<Entry>, prefix: Path, depth: nat) {
    forall e | e in entries :: EntryOk(e.node, Child(prefix, e.name), depth)
  }

  const BY_NAME: (Entry, Entry) -> bool := By((e: Entry) => e.name)

  /** The files at and under `node`, each directory's entries in the order of their names. */
  function Files(node: Node, path: Path): seq<Path> {
    match node
    case File(_) => [path]
    case Directory(entries) =>
      var sorted := Sort(entries, BY_NAME);
      Concat(seq(|sorted|, i requires 0 <= i < |sorted| =>
        SortHas(entries, BY_NAME, sorted[i]); Files(sorted[i].node, Child(path, sorted[i].name))))
    case _ => []
  }

  function FilesOf(entry: Entry, prefix: Path): seq<Path> {
    Files(entry.node, Child(prefix, entry.name))
  }

  function FilesOfEach(entries: seq<Entry>, prefix: Path): seq<Path> {
    if entries == [] then []
    else FilesOfEach(entries[..|entries| - 1], prefix) + FilesOf(entries[|entries| - 1], prefix)
  }

  lemma {:induction false} ConcatIsEach(entries: seq<Entry>, prefix: Path, lists: seq<seq<Path>>)
    requires |lists| == |entries| && forall i | 0 <= i < |entries| :: lists[i] == FilesOf(entries[i], prefix)
    ensures Concat(lists) == FilesOfEach(entries, prefix)
  {
    if entries != [] {
      var n := |entries| - 1;
      ConcatIsEach(entries[..n], prefix, lists[..n]);
    }
  }

  lemma FilesOfDirectory(entries: seq<Entry>, prefix: Path)
    ensures Files(Directory(entries), prefix) == FilesOfEach(Sort(entries, BY_NAME), prefix)
  {
    var sorted := Sort(entries, BY_NAME);
    var lists := seq(|sorted|, i requires 0 <= i < |sorted| =>
      SortHas(entries, BY_NAME, sorted[i]); Files(sorted[i].node, Child(prefix, sorted[i].name)));
    ConcatIsEach(sorted, prefix, lists);
  }

  // ------------------------------------------------------------ the walk

  /** The entries of one directory in the order of their names, unless one is refused. */
  method ReadEntries(entries: seq<Entry>) returns (r: Option<seq<Entry>>)
    ensures r.Some? <==> NamesOk(entries)
    ensures r.Some? ==> r.value == Sort(entries, BY_NAME)
  {
    var lowered: set<seq<Byte>> := {};
    for i := 0 to |entries|
      invariant NamesOk(entries[..i])
      invariant lowered == set k | 0 <= k < i :: Lower(entries[k].name)
    {
      var name := entries[i].name;
      assert entries[i] in entries;
      if !IsSegment(name) || Lower(name) in lowered {
        return None;
      }
      lowered := lowered + {Lower(name)};
    }
    assert entries[..|entries|] == entries;
    return Some(Sort(entries, BY_NAME));
  }

  lemma {:induction false} EachGrows(entries: seq<Entry>, prefix: Path, k: nat)
    requires k <= |entries|
    ensures |FilesOfEach(entries[..k], prefix)| <= |FilesOfEach(entries, prefix)|
    decreases |entries|
  {
    if k < |entries| {
      EachGrows(entries[..|entries| - 1], prefix, k);
      assert entries[..|entries| - 1][..k] == entries[..k];
    } else {
      assert entries[..k] == entries;
    }
  }

  lemma EachOkSorted(entries: seq<Entry>, prefix: Path, depth: nat)
    ensures EachOk(Sort(entries, BY_NAME), prefix, depth) <==> EachOk(entries, prefix, depth)
  {
    hide EntryOk, Sort;
    forall e: Entry
      ensures e in entries <==> e in Sort(entries, BY_NAME)
    {
      SortHas(entries, BY_NAME, e);
    }
  }

  method Collect(node: Node, prefix: Path, depth: nat, out: seq<Path>) returns (r: Option<seq<Path>>)
    requires |out| <= MAX_MEMBER_COUNT
    ensures r.Some? <==> TreeOk(node, prefix, depth) && |out + Files(node, prefix)| <= MAX_MEMBER_COUNT
    ensures r.Some? ==> r.value == out + Files(node, prefix)
    decreases node, 2
  {
    hide NamesOk, EntryOk, Sort, Files;
    if depth > MAX_MEMBER_PATH_DEPTH || !node.Directory? {
      return None;
    }
    var read := ReadEntries(node.entries);
    if read.None? || node.entries == [] {
      return None;
    }
    forall e | e in read.value
      ensures e.node < node
    {
      SortHas(node.entries, BY_NAME, e);
    }
    r := CollectEach(node, read.value, prefix, depth, out);
    FilesOfDirectory(node.entries, prefix);
    EachOkSorted(node.entries, prefix, depth);
  }

  lemma EachStart(sorted: seq<Entry>, prefix: Path, depth: nat)
    ensures EachOk(sorted[..0], prefix, depth) && FilesOfEach(sorted[..0], prefix) == []
  {
  }

  lemma EachStep(sorted: seq<Entry>, prefix: Path, depth: nat, i: nat)
    requires i < |sorted|
    ensures FilesOfEach(sorted[..i + 1], prefix) ==
      FilesOfEach(sorted[..i], prefix) + Files(sorted[i].node, Child(prefix, sorted[i].name))
    ensures EachOk(sorted[..i + 1], prefix, depth) <==>
      EachOk(sorted[..i], prefix, depth) && EntryOk(sorted[i].node, Child(prefix, sorted[i].name), depth)
    ensures EachOk(sorted, prefix, depth) ==> EachOk(sorted[..i + 1], prefix, depth)
    ensures |FilesOfEach(sorted[..i + 1], prefix)| <= |FilesOfEach(sorted, prefix)|
  {
    hide EntryOk, Child;
    EachGrows(sorted, prefix, i + 1);
    assert sorted[..i + 1] == sorted[..i] + [sorted[i]];
    assert sorted[..i + 1][..i] == sorted[..i];
  }

  /** The entries of `directory` in order. */
  method CollectEach(ghost directory: Node, sorted: seq<Entry>, prefix: Path, depth: nat, out: seq<Path>)
      returns (r: Option<seq<Path>>)
    requires |out| <= MAX_MEMBER_COUNT && forall e | e in sorted :: e.node < directory
    ensures r.Some? <==> EachOk(sorted, prefix, depth) && |out + FilesOfEach(sorted, prefix)| <= MAX_MEMBER_COUNT
    ensures r.Some? ==> r.value == out + FilesOfEach(sorted, prefix)
    decreases directory, 1
  {
    hide EntryOk, EachOk, FilesOfEach, Files, Child;
    EachStart(sorted, prefix, depth);
    var listed := out;
    for i := 0 to |sorted|
      invariant EachOk(sorted[..i], prefix, depth)
      invariant listed == out + FilesOfEach(sorted[..i], prefix)
      invariant |listed| <= MAX_MEMBER_COUNT
    {
      EachStep(sorted, prefix, depth, i);
      var next := CollectEntry(sorted[i].node, Child(prefix, sorted[i].name), depth, listed);
      if next.None? {
        return None;
      }
      listed := next.value;
    }
    assert sorted[..|sorted|] == sorted;
    return Some(listed);
  }

  method CollectEntry(node: Node, path: Path, depth: nat, out: seq<Path>) returns (r: Option<seq<Path>>)
    requires |out| <= MAX_MEMBER_COUNT
    ensures r.Some? <==> EntryOk(node, path, depth) && |out + Files(node, path)| <= MAX_MEMBER_COUNT
    ensures r.Some? ==> r.value == out + Files(node, path)
    decreases node, 3
  {
    if |path| > MAX_MEMBER_PATH_BYTES {
      return None;
    }
    if node.Directory? {
      r := Collect(node, path, depth + 1, out);
    } else if node.File? {
      r := if |out + [path]| > MAX_MEMBER_COUNT then None else Some(out + [path]);
    } else {
      return None;
    }
  }

  // ------------------------------------------------------------ paths and their segments

  lemma {:induction false} SplitChild(prefix: Path, name: Name)
    requires SLASH !in name
    ensures Split(Child(prefix, name), SLASH) == Split(prefix, SLASH) + [name]
  {
    if prefix == [] {
      SplitPiece(name, SLASH, []);
      assert Child(prefix, name)[1..] == name;
    } else {
      SplitChild(prefix[1..], name);
      assert Child(prefix, name)[1..] == Child(prefix[1..], name);
    }
  }

  lemma {:induction false} SplitUnder(prefix: Path, parts: seq<Name>)
    requires forall part | part in parts :: SLASH !in part
    ensures Split(Under(prefix, parts), SLASH) == Split(prefix, SLASH) + parts
    decreases |parts|
  {
    if parts != [] {
      SplitChild(prefix, parts[0]);
      SplitUnder(Child(prefix, parts[0]), parts[1..]);
      assert parts == [parts[0]] + parts[1..];
    }
  }

  lemma {:induction false} UnderExtends(prefix: Path, parts: seq<Name>)
    ensures prefix <= Under(prefix, parts)
    ensures parts != [] ==> prefix + [SLASH] <= Under(prefix, parts)
    decreases |parts|
  {
    if parts != [] {
      UnderExtends(Child(prefix, parts[0]), parts[1..]);
      assert prefix + [SLASH] <= Child(prefix, parts[0]);
    }
  }

  /** Every byte of a path but the slashes is in a segment. */
  lemma {:induction false} SegmentsCover(path: Path, b: Byte) returns (segment: Name)
    requires b in path && b != SLASH
    ensures segment in Split(path, SLASH) && b in segment
  {
    var all, rest := Split(path, SLASH), Split(path[1..], SLASH);
    assert path == [path[0]] + path[1..];
    assert rest == [rest[0]] + rest[1..];
    if b == path[0] {
      segment := all[0];
    } else {
      segment := SegmentsCover(path[1..], b);
      if path[0] != SLASH && segment !in rest[1..] {
        segment := [path[0]] + segment;
        assert segment == all[0];
      }
    }
  }

  lemma {:induction false} EndsInEmpty(path: Path)
    requires path != [] && path[|path| - 1] == SLASH
    ensures |Split(path, SLASH)| >= 2 && Split(path, SLASH)[|Split(path, SLASH)| - 1] == []
  {
    if |path| > 1 {
      EndsInEmpty(path[1..]);
    } else {
      assert path[1..] == [];
    }
  }

  lemma EndsInSegment(path: Path)
    requires path != [] && [] !in Split(path, SLASH)
    ensures path[|path| - 1] != SLASH
  {
    if path[|path| - 1] == SLASH {
      EndsInEmpty(path);
    }
  }

  lemma {:induction false} LowerSplit(path: Path)
    ensures |Split(Lower(path), SLASH)| == |Split(path, SLASH)|
    ensures forall i | 0 <= i < |Split(path, SLASH)| :: Split(Lower(path), SLASH)[i] == Lower(Split(path, SLASH)[i])
  {
    if path != [] {
      LowerSplit(path[1..]);
      assert Lower(path)[1..] == Lower(path[1..]);
      var parts, rest := Split(path, SLASH), Split(path[1..], SLASH);
      var lowered, lowRest := Split(Lower(path), SLASH), Split(Lower(path[1..]), SLASH);
      if path[0] == SLASH {
        assert parts == [[]] + rest && lowered == [[]] + lowRest;
      } else {
        assert parts == [[path[0]] + rest[0]] + rest[1..];
        assert lowered == [[LowerByte(path[0])] + lowRest[0]] + lowRest[1..];
        assert Lower(parts[0]) == [LowerByte(path[0])] + Lower(rest[0]);
      }
      hide Split;
    }
  }

  // ------------------------------------------------------------ what is listed

  lemma {:induction false} EachHas(entries: seq<Entry>, prefix: Path, x: Path)
    ensures x in FilesOfEach(entries, prefix) <==> exists e :: e in entries && x in FilesOf(e, prefix)
  {
    if entries != [] {
      var n := |entries| - 1;
      EachHas(entries[..n], prefix, x);
      assert entries == entries[..n] + [entries[n]];
    }
  }

  lemma DirectoryHas(entries: seq<Entry>, prefix: Path, x: Path)
    ensures x in Files(Directory(entries), prefix) <==> exists e :: e in entries && x in FilesOf(e, prefix)
  {
    FilesOfDirectory(entries, prefix);
    EachHas(Sort(entries, BY_NAME), prefix, x);
    hide Files, FilesOf, FilesOfEach, Sort;
    forall e: Entry
      ensures e in entries <==> e in Sort(entries, BY_NAME)
    {
      SortHas(entries, BY_NAME, e);
    }
  }

  lemma {:induction false} FindEntry(entries: seq<Entry>, e: Entry)
    requires e in entries && forall i, j | 0 <= i < j < |entries| :: entries[i].name != entries[j].name
    ensures Find(entries, e.name) == Some(e.node)
  {
    if entries[0] != e {
      assert e in entries[1..];
      var i :| 0 <= i < |entries[1..]| && entries[1..][i] == e;
      assert entries[0].name != entries[i + 1].name;
      FindEntry(entries[1..], e);
    }
  }

  lemma {:induction false} FoundEntry(entries: seq<Entry>, name: Name)
    requires Find(entries, name).Some?
    ensures Entry(name, Find(entries, name).value) in entries
  {
    if entries[0].name != name {
      FoundEntry(entries[1..], name);
    }
  }

  lemma NamesDiffer(entries: seq<Entry>)
    requires NamesOk(entries)
    ensures forall i, j | 0 <= i < j < |entries| :: entries[i].name != entries[j].name
  {
    forall i, j | 0 <= i < j < |entries|
      ensures entries[i].name != entries[j].name
    {
      assert Lower(entries[i].name) != Lower(entries[j].name);
    }
  }

  lemma SegmentHasNoSlash(name: Name)
    requires IsSegment(name)
    ensures SLASH !in name && BACKSLASH !in name
  {
  }

  /** A listed path leads to a file. */
  lemma {:induction false} ListedIsFile(node: Node, path: Path, depth: nat, x: Path) returns (parts: seq<Name>)
    requires EntryOk(node, path, depth) && x in Files(node, path)
    ensures HasFile(node, parts) && x == Under(path, parts)
    decreases node
  {
    if node.File? {
      parts := [];
    } else {
      DirectoryHas(node.entries, path, x);
      var e :| e in node.entries && x in FilesOf(e, path);
      var rest := ListedIsFile(e.node, Child(path, e.name), depth + 1, x);
      parts := [e.name] + rest;
      NamesDiffer(node.entries);
      FindEntry(node.entries, e);
      assert parts[1..] == rest;
    }
  }

  /** A file is listed under a path of good segments that is neither too deep nor too long. */
  lemma {:induction false} FileIsListed(node: Node, path: Path, depth: nat, parts: seq<Name>)
    requires EntryOk(node, path, depth) && depth <= MAX_MEMBER_PATH_DEPTH && HasFile(node, parts)
    ensures Under(path, parts) in Files(node, path)
    ensures depth + |parts| <= MAX_MEMBER_PATH_DEPTH && |Under(path, parts)| <= MAX_MEMBER_PATH_BYTES
    ensures forall part | part in parts :: IsSegment(part)
    decreases node
  {
    if parts != [] {
      var below := Find(node.entries, parts[0]).value;
      FoundEntry(node.entries, parts[0]);
      var e := Entry(parts[0], below);
      FileIsListed(below, Child(path, parts[0]), depth + 1, parts[1..]);
      DirectoryHas(node.entries, path, Under(path, parts));
      assert Under(path, parts) in FilesOf(e, path);
      assert parts == [parts[0]] + parts[1..];
    }
  }

  /** Files whose names differ only in case are one file. */
  lemma {:induction false} CaseDecides(node: Node, path: Path, depth: nat, p: seq<Name>, q: seq<Name>)
    requires EntryOk(node, path, depth) && HasFile(node, p) && HasFile(node, q)
    requires |p| == |q| && forall i | 0 <= i < |p| :: Lower(p[i]) == Lower(q[i])
    ensures p == q
    decreases node
  {
    if p != [] {
      FoundEntry(node.entries, p[0]);
      FoundEntry(node.entries, q[0]);
      var below := Find(node.entries, p[0]).value;
      SameLowerName(node.entries, Entry(p[0], below), Entry(q[0], Find(node.entries, q[0]).value));
      assert forall i | 0 <= i < |p| - 1 :: p[1..][i] == p[i + 1] && q[1..][i] == q[i + 1];
      CaseDecides(below, Child(path, p[0]), depth + 1, p[1..], q[1..]);
      assert p == [p[0]] + p[1..] && q == [q[0]] + q[1..];
    }
  }

  lemma SameLowerName(entries: seq<Entry>, e: Entry, f: Entry)
    requires NamesOk(entries) && e in entries && f in entries
    ensures Lower(e.name) == Lower(f.name) ==> e == f
  {
    var i :| 0 <= i < |entries| && entries[i] == e;
    var j :| 0 <= j < |entries| && entries[j] == f;
  }

  const ROOT: Path := Ascii("dist")

  /** The walk accepts the payload's `dist` directory. */
  predicate PayloadOk(tree: Node) {
    TreeOk(tree, ROOT, 2)
  }

  lemma PayloadEntryOk(tree: Node)
    requires PayloadOk(tree)
    ensures EntryOk(tree, ROOT, 1)
  {
  }

  lemma PartsOfListed(tree: Node, x: Path) returns (parts: seq<Name>)
    requires PayloadOk(tree) && x in Files(tree, ROOT)
    ensures HasFile(tree, parts) && x == Under(ROOT, parts) && parts != []
    ensures 1 + |parts| <= MAX_MEMBER_PATH_DEPTH && |x| <= MAX_MEMBER_PATH_BYTES
    ensures forall part | part in parts :: IsSegment(part)
    ensures Split(x, SLASH) == [ROOT] + parts
  {
    PayloadEntryOk(tree);
    parts := ListedIsFile(tree, ROOT, 1, x);
    FileIsListed(tree, ROOT, 1, parts);
    forall part | part in parts
      ensures SLASH !in part
    {
      SegmentHasNoSlash(part);
    }
    SplitUnder(ROOT, parts);
    SplitPiece(ROOT, SLASH, []);
  }

  /** What the walk lists are exactly the paths of the files in the tree. */
  lemma ListsExactlyFiles(tree: Node, x: Path)
    requires PayloadOk(tree)
    ensures x in Files(tree, ROOT) <==> exists parts :: HasFile(tree, parts) && x == Under(ROOT, parts)
  {
    PayloadEntryOk(tree);
    if x in Files(tree, ROOT) {
      var parts := ListedIsFile(tree, ROOT, 1, x);
    }
    if parts :| HasFile(tree, parts) && x == Under(ROOT, parts) {
      FileIsListed(tree, ROOT, 1, parts);
    }
  }

  /** Every path the walk lists is one the manifest's grammar allows. */
  lemma ListedIsMemberPath(tree: Node, x: Path)
    requires PayloadOk(tree) && x in Files(tree, ROOT)
    ensures IsMemberPath(x)
  {
    var parts := PartsOfListed(tree, x);
    UnderExtends(ROOT, parts);
    assert ROOT + [SLASH] == Ascii("dist/");
    assert forall segment | segment in Split(x, SLASH) :: segment == ROOT || segment in parts;
    assert IsSegment(ROOT);
    EndsInSegment(x);
    if BACKSLASH in x {
      var segment := SegmentsCover(x, BACKSLASH);
      SegmentHasNoSlash(segment);
    }
  }

  /** The case check in each directory makes all listed paths different even when case is ignored. */
  lemma CaseUnique(tree: Node, x: Path, y: Path)
    requires PayloadOk(tree) && x in Files(tree, ROOT) && y in Files(tree, ROOT) && Lower(x) == Lower(y)
    ensures x == y
  {
    PayloadEntryOk(tree);
    var p := PartsOfListed(tree, x);
    var q := PartsOfListed(tree, y);
    LowerSplit(x);
    LowerSplit(y);
    assert forall i | 0 <= i < |p| :: Split(x, SLASH)[i + 1] == p[i];
    assert forall i | 0 <= i < |q| :: Split(y, SLASH)[i + 1] == q[i];
    CaseDecides(tree, ROOT, 1, p, q);
  }

  // ------------------------------------------------------------ each file once

  lemma DistinctConcat<T>(s: seq<T>, t: seq<T>)
    requires Distinct(s) && Distinct(t) && forall x | x in s :: x !in t
    ensures Distinct(s + t)
  {
    var all := s + t;
    forall i, j | 0 <= i < j < |all|
      ensures all[i] != all[j]
    {
      if i < |s| <= j {
        assert s[i] in s && t[j - |s|] in t;
      }
    }
  }

  /** A path below `prefix` shows which entry it came through. */
  lemma ListedThrough(e: Entry, prefix: Path, depth: nat, x: Path)
    requires EntryOk(e.node, Child(prefix, e.name), depth) && depth <= MAX_MEMBER_PATH_DEPTH
    requires IsSegment(e.name) && x in FilesOf(e, prefix)
    ensures |Split(x, SLASH)| > |Split(prefix, SLASH)| && Split(x, SLASH)[|Split(prefix, SLASH)|] == e.name
  {
    var parts := ListedIsFile(e.node, Child(prefix, e.name), depth, x);
    FileIsListed(e.node, Child(prefix, e.name), depth, parts);
    hide EntryOk, FilesOf, HasFile;
    forall part | part in parts
      ensures SLASH !in part
    {
      SegmentHasNoSlash(part);
    }
    SegmentHasNoSlash(e.name);
    SplitUnder(Child(prefix, e.name), parts);
    SplitChild(prefix, e.name);
  }

  lemma {:induction false} EachDistinct(entries: seq<Entry>, prefix: Path, depth: nat)
    requires EachOk(entries, prefix, depth) && depth <= MAX_MEMBER_PATH_DEPTH
    requires forall e | e in entries :: IsSegment(e.name) && Distinct(FilesOf(e, prefix))
    requires forall i, j | 0 <= i < j < |entries| :: entries[i].name != entries[j].name
    ensures Distinct(FilesOfEach(entries, prefix))
    decreases |entries|
  {
    if entries != [] {
      var n := |entries| - 1;
      var before, last := entries[..n], entries[n];
      EachDistinct(before, prefix, depth);
      forall x | x in FilesOfEach(before, prefix)
        ensures x !in FilesOf(last, prefix)
      {
        EachHas(before, prefix, x);
        var e :| e in before && x in FilesOf(e, prefix);
        ListedThrough(e, prefix, depth, x);
        if x in FilesOf(last, prefix) {
          ListedThrough(last, prefix, depth, x);
        }
      }
      DistinctConcat(FilesOfEach(before, prefix), FilesOf(last, prefix));
    }
  }

  lemma SortedNamesDiffer(entries: seq<Entry>)
    requires NamesOk(entries)
    ensures forall i, j | 0 <= i < j < |Sort(entries, BY_NAME)| ::
      Sort(entries, BY_NAME)[i].name != Sort(entries, BY_NAME)[j].name
    ensures forall e | e in Sort(entries, BY_NAME) :: e in entries && IsSegment(e.name)
  {
    var sorted := Sort(entries, BY_NAME);
    forall e | e in sorted
      ensures e in entries
    {
      SortHas(entries, BY_NAME, e);
    }
    SortPermutes(entries, BY_NAME);
    PermutationKeepsDistinct(entries, sorted);
    NamesDiffer(entries);
    forall i, j | 0 <= i < j < |sorted|
      ensures sorted[i].name != sorted[j].name
    {
      assert sorted[i] in sorted && sorted[j] in sorted;
      SameLowerName(entries, sorted[i], sorted[j]);
    }
  }

  /** The walk lists each file once. */
  lemma {:induction false} FilesAreDistinct(node: Node, path: Path, depth: nat)
    requires EntryOk(node, path, depth) && depth <= MAX_MEMBER_PATH_DEPTH
    ensures Distinct(Files(node, path))
    decreases node
  {
    if node.Directory? {
      var sorted := Sort(node.entries, BY_NAME);
      SortedNamesDiffer(node.entries);
      forall e | e in sorted
        ensures Distinct(FilesOf(e, path)) && EntryOk(e.node, Child(path, e.name), depth + 1)
      {
        FilesAreDistinct(e.node, Child(path, e.name), depth + 1);
      }
      FilesOfDirectory(node.entries, path);
      EachDistinct(sorted, path, depth + 1);
    }
  }

  // ------------------------------------------------------------ the manifest

  datatype Member = Member(path: Path, size: nat, sha256: seq<Byte>)

  predicate IsLowerHexSha256(value: seq<Byte>) {
    |value| == 64 && forall b | b in value :: 48 <= b <= 57 || 97 <= b <= 102
  }

  predicate MemberOk(m: Member) {
    IsMemberPath(m.path) && 0 < m.size <= MAX_MEMBER_BYTES && IsLowerHexSha256(m.sha256)
  }

  function Paths(members: seq<Member>): (paths: seq<Path>)
    ensures |paths| == |members|
  {
    seq(|members|, i requires 0 <= i < |members| => members[i].path)
  }

  const BY_PATH: (Path, Path) -> bool := By((p: Path) => p)

  /** Good members in strictly ascending order of path, no two paths alike when case is ignored. */
  ghost predicate MembersOk(members: seq<Member>) {
    && (forall m | m in members :: MemberOk(m))
    && StrictlyOrdered(Paths(members), BY_PATH)
    && forall i, j | 0 <= i < j < |members| :: Lower(members[i].path) != Lower(members[j].path)
  }

  lemma StrictAppend(paths: seq<Path>, p: Path)
    requires StrictlyOrdered(paths, BY_PATH)
    ensures StrictlyOrdered(paths + [p], BY_PATH) <==> paths == [] || Less(paths[|paths| - 1], p)
  {
    var all, n := paths + [p], |paths|;
    if StrictlyOrdered(all, BY_PATH) && n > 0 {
      assert BY_PATH(all[n - 1], all[n]);
    }
    if n > 0 && Less(paths[n - 1], p) {
      forall i, j | 0 <= i < j < |all|
        ensures BY_PATH(all[i], all[j])
      {
        if j == n && i < n - 1 {
          assert BY_PATH(paths[i], paths[n - 1]);
          LessIsTransitive(paths[i], paths[n - 1], p);
        }
      }
    }
  }

  lemma MembersStep(members: seq<Member>, i: nat)
    requires i < |members|
    ensures MembersOk(members) ==> MembersOk(members[..i + 1])
    ensures MembersOk(members[..i]) ==>
      (MembersOk(members[..i + 1]) <==>
        && MemberOk(members[i])
        && (i > 0 ==> Less(members[i - 1].path, members[i].path))
        && forall k | 0 <= k < i :: Lower(members[k].path) != Lower(members[i].path))
  {
    var shorter, longer := members[..i], members[..i + 1];
    assert longer == shorter + [members[i]];
    assert Paths(longer) == Paths(shorter) + [members[i].path];
    assert Paths(longer) == Paths(members)[..i + 1];
    hide MemberOk, Lower;
    if MembersOk(shorter) {
      StrictAppend(Paths(shorter), members[i].path);
      assert i > 0 ==> Paths(shorter)[i - 1] == members[i - 1].path;
      assert MembersOk(longer) ==> forall k | 0 <= k < i :: longer[k] == members[k] && longer[i] == members[i];
    }
  }

  method CheckMembers(members: seq<Member>) returns (r: Option<seq<Path>>)
    ensures r.Some? <==> MembersOk(members)
    ensures r.Some? ==> r.value == Paths(members)
  {
    var declared: seq<Path> := [];
    var declaredSet: set<Path> := {};
    var lowered: set<Path> := {};
    assert members[..0] == [];
    for i := 0 to |members|
      invariant MembersOk(members[..i])
      invariant declared == Paths(members[..i])
      invariant declaredSet == set k | 0 <= k < i :: members[k].path
      invariant lowered == set k | 0 <= k < i :: Lower(members[k].path)
    {
      hide MemberOk, MembersOk, Lower;
      var m := members[i];
      MembersStep(members, i);
      if !MemberOk(m) || (i > 0 && !Less(members[i - 1].path, m.path)) {
        return None;
      }
      if m.path in declaredSet || Lower(m.path) in lowered {
        return None;
      }
      declaredSet, lowered := declaredSet + {m.path}, lowered + {Lower(m.path)};
      declared := declared + [m.path];
    }
    assert members[..|members|] == members;
    return Some(declared);
  }

  // ------------------------------------------------------------ what the manifest promises

  ghost predicate SameFiles(tree: Node, members: seq<Member>) {
    forall x :: x in Files(tree, ROOT) <==> x in Paths(members)
  }

  /** Comparing the sorted walk with the declared list compares the two as sets. */
  lemma SortedWalkIsDeclared(tree: Node, members: seq<Member>)
    requires PayloadOk(tree) && StrictlyOrdered(Paths(members), BY_PATH)
    ensures Sort(Files(tree, ROOT), BY_PATH) == Paths(members) <==> SameFiles(tree, members)
  {
    var listed, declared := Files(tree, ROOT), Paths(members);
    var sorted := Sort(listed, BY_PATH);
    PayloadEntryOk(tree);
    FilesAreDistinct(tree, ROOT, 1);
    hide Files, PayloadOk, Sort, Paths;
    SortPermutes(listed, BY_PATH);
    PermutationKeepsDistinct(listed, sorted);
    ByIsWeakOrder((p: Path) => p);
    SortOrders(listed, BY_PATH);
    forall x: Path
      ensures x in sorted <==> x in listed
    {
      SortHas(listed, BY_PATH, x);
    }
    if SameFiles(tree, members) {
      StrictIsDistinct(declared);
      DistinctIsStrict(sorted);
      SameMembers(sorted, declared);
      StrictOrderIsUnique(sorted, declared, BY_PATH);
    }
  }

  lemma StrictIsDistinct(paths: seq<Path>)
    requires StrictlyOrdered(paths, BY_PATH)
    ensures Distinct(paths)
  {
    forall i, j | 0 <= i < j < |paths|
      ensures paths[i] != paths[j]
    {
      assert BY_PATH(paths[i], paths[j]);
      LessIsTotal(paths[i], paths[i]);
    }
  }

  lemma DistinctIsStrict(paths: seq<Path>)
    requires Ordered(paths, BY_PATH) && Distinct(paths)
    ensures StrictlyOrdered(paths, BY_PATH)
  {
    forall i, j | 0 <= i < j < |paths|
      ensures BY_PATH(paths[i], paths[j])
    {
      LessIsTotal(paths[i], paths[j]);
    }
  }

  function Content(tree: Node, path: Path): Option<seq<Byte>> {
    var parts := Split(path, SLASH);
    if HasFile(tree, parts[1..]) then Some(Lookup(tree, parts[1..]).value.content) else None
  }

  function TotalSize(members: seq<Member>): nat {
    if members == [] then 0 else TotalSize(members[..|members| - 1]) + members[|members| - 1].size
  }

  predicate ContentOk(tree: Node, m: Member, sha: seq<Byte> -> seq<Byte>) {
    && Content(tree, m.path).Some?
    && |Content(tree, m.path).value| == m.size
    && sha(Content(tree, m.path).value) == m.sha256
  }

  lemma {:induction false} TotalGrows(members: seq<Member>, k: nat)
    requires k <= |members|
    ensures TotalSize(members[..k]) <= TotalSize(members)
    decreases |members|
  {
    if k < |members| {
      TotalGrows(members[..|members| - 1], k);
      assert members[..|members| - 1][..k] == members[..k];
    } else {
      assert members[..k] == members;
    }
  }

  method CheckContents(tree: Node, members: seq<Member>, sha: seq<Byte> -> seq<Byte>) returns (ok: bool)
    ensures ok <==>
      (forall m | m in members :: ContentOk(tree, m, sha)) && TotalSize(members) <= MAX_TOTAL_PAYLOAD_BYTES
  {
    hide Content, Lookup, HasFile, Split;
    var total := 0;
    for i := 0 to |members|
      invariant forall k | 0 <= k < i :: ContentOk(tree, members[k], sha)
      invariant total == TotalSize(members[..i]) <= MAX_TOTAL_PAYLOAD_BYTES
    {
      var m := members[i];
      assert m in members && members[..i + 1][..i] == members[..i];
      TotalGrows(members, i + 1);
      var content := Content(tree, m.path);
      if content.None? || |content.value| != m.size {
        return false;
      }
      total := total + m.size;
      if total > MAX_TOTAL_PAYLOAD_BYTES {
        return false;
      }
      if sha(content.value) != m.sha256 {
        return false;
      }
    }
    assert members[..|members|] == members;
    return true;
  }

  // ------------------------------------------------------------ the inventory digest

  const COLON: Byte := 58
  const NEWLINE: Byte := 10

  function Line(m: Member): seq<Byte> {
    m.path + [COLON] + m.sha256
  }

  function JoinLines(members: seq<Member>): seq<Byte> {
    if members == [] then []
    else if |members| == 1 then Line(members[0])
    else Line(members[0]) + [NEWLINE] + JoinLines(members[1..])
  }

  lemma MemberPathHas(path: Path, b: Byte)
    requires IsMemberPath(path) && b in path
    ensures b == SLASH || IsSegmentChar(b)
  {
    if b != SLASH {
      var segment := SegmentsCover(path, b);
    }
  }

  lemma LineIsOneLine(m: Member)
    requires MemberOk(m)
    ensures NEWLINE !in Line(m)
  {
    hide IsMemberPath;
    if NEWLINE in m.path {
      MemberPathHas(m.path, NEWLINE);
    }
  }

  lemma {:induction false} LinesOfSummary(members: seq<Member>)
    requires members != [] && forall m | m in members :: MemberOk(m)
    ensures |Split(JoinLines(members), NEWLINE)| == |members|
    ensures forall i | 0 <= i < |members| :: Split(JoinLines(members), NEWLINE)[i] == Line(members[i])
  {
    LineIsOneLine(members[0]);
    hide MemberOk, Line;
    if |members| == 1 {
      SplitPiece(Line(members[0]), NEWLINE, []);
    } else {
      SplitPiece(Line(members[0]), NEWLINE, JoinLines(members[1..]));
      LinesOfSummary(members[1..]);
    }
  }

  lemma LineDetermines(m: Member, n: Member)
    requires MemberOk(m) && MemberOk(n) && Line(m) == Line(n)
    ensures m.path == n.path && m.sha256 == n.sha256
  {
    var line := Line(m);
    assert m.sha256 == line[|line| - 64..] == n.sha256;
    assert m.path == line[..|line| - 65] == n.path;
  }

  lemma LineSplits(m: Member)
    requires MemberOk(m)
    ensures Split(Line(m), 58) == [m.path, m.sha256]
  {
    hide IsMemberPath;
    if 58 in m.path {
      MemberPathHas(m.path, 58);
    }
    SplitPiece(m.path, 58, m.sha256);
    SplitPiece(m.sha256, 58, []);
  }

  /** The inventory's text has a line for each member, in order: the path and the digest on either side of a colon. */
  lemma SummaryListsMembers(members: seq<Member>)
    requires members != [] && forall m | m in members :: MemberOk(m)
    ensures
      var lines := Split(JoinLines(members), 10);
      && |lines| == |members|
      && forall i | 0 <= i < |members| :: Split(lines[i], 58) == [members[i].path, members[i].sha256]
  {
    LinesOfSummary(members);
    hide MemberOk, Line, JoinLines, Split;
    forall i | 0 <= i < |members|
      ensures Split(Split(JoinLines(members), 10)[i], 58) == [members[i].path, members[i].sha256]
    {
      LineSplits(members[i]);
    }
  }

  /** The text whose digest is the inventory names every member's path and digest. */
  lemma SummaryDetermines(members: seq<Member>, others: seq<Member>)
    requires members != [] && others != []
    requires (forall m | m in members :: MemberOk(m)) && (forall m | m in others :: MemberOk(m))
    requires JoinLines(members) == JoinLines(others)
    ensures |members| == |others|
    ensures forall i | 0 <= i < |members| :: members[i].path == others[i].path && members[i].sha256 == others[i].sha256
  {
    LinesOfSummary(members);
    LinesOfSummary(others);
    hide MemberOk, Line, JoinLines, Split;
    forall i | 0 <= i < |members|
      ensures members[i].path == others[i].path && members[i].sha256 == others[i].sha256
    {
      LineDetermines(members[i], others[i]);
    }
  }

  // ------------------------------------------------------------ the whole comparison

  ghost predicate Authentic(tree: Node, members: seq<Member>, inventory: seq<Byte>, sha: seq<Byte> -> seq<Byte>) {
    && 0 < |members| <= MAX_MEMBER_COUNT
    && MembersOk(members)
    && PayloadOk(tree)
    && SameFiles(tree, members)
    && (forall m | m in members :: ContentOk(tree, m, sha))
    && TotalSize(members) <= MAX_TOTAL_PAYLOAD_BYTES
    && sha(JoinLines(members)) == inventory
  }

  lemma SameFilesCount(tree: Node, members: seq<Member>)
    requires PayloadOk(tree) && MembersOk(members) && SameFiles(tree, members)
    ensures |Files(tree, ROOT)| == |members|
  {
    SortedWalkIsDeclared(tree, members);
    assert |Sort(Files(tree, ROOT), BY_PATH)| == |Files(tree, ROOT)|;
  }

  method VerifyMembers(tree: Node, members: seq<Member>, inventory: seq<Byte>, sha: seq<Byte> -> seq<Byte>)
      returns (ok: bool)
    ensures ok <==> Authentic(tree, members, inventory, sha)
  {
    hide MembersOk, TreeOk, SameFiles, Files, ContentOk, JoinLines, TotalSize;
    if members == [] || |members| > MAX_MEMBER_COUNT {
      return false;
    }
    var declared := CheckMembers(members);
    if declared.None? {
      return false;
    }
    var physical := Collect(tree, ROOT, 2, []);
    assert [] + Files(tree, ROOT) == Files(tree, ROOT);
    if PayloadOk(tree) && SameFiles(tree, members) {
      SameFilesCount(tree, members);
    }
    if physical.None? {
      return false;
    }
    MembersAreStrict(members);
    SortedWalkIsDeclared(tree, members);
    if Sort(physical.value, BY_PATH) != declared.value {
      return false;
    }
    ok := CheckContents(tree, members, sha);
    if sha(JoinLines(members)) != inventory {
      ok := false;
    }
  }

  lemma MembersAreStrict(members: seq<Member>)
    requires MembersOk(members)
    ensures StrictlyOrdered(Paths(members), BY_PATH)
  {
  }

  /**
   In an authentic payload every file is a declared member with the declared size and digest, and every
   member is a file.
  */
  lemma AuthenticFiles(
    tree: Node, members: seq<Member>, inventory: seq<Byte>, sha: seq<Byte> -> seq<Byte>, parts: seq<Name>)
    requires Authentic(tree, members, inventory, sha)
    ensures
      (exists m :: m in members && m.path == Under(ROOT, parts) && forall part | part in parts :: IsSegment(part))
      <==> HasFile(tree, parts)
    ensures HasFile(tree, parts) ==>
      exists m :: m in members && m.path == Under(ROOT, parts)
        && m.size == |Lookup(tree, parts).value.content| && m.sha256 == sha(Lookup(tree, parts).value.content)
  {
    hide MembersOk, TreeOk, Files, JoinLines, TotalSize, MemberOk, HasFile, IsSegment;
    PayloadEntryOk(tree) by { assert PayloadOk(tree); }
    var path := Under(ROOT, parts);
    if HasFile(tree, parts) {
      FileIsListed(tree, ROOT, 1, parts);
      assert path in Paths(members);
      var i :| 0 <= i < |members| && members[i].path == path;
      assert members[i] in members;
      PartsOfPath(parts);
    }
    if m :| m in members && m.path == path && forall part | part in parts :: IsSegment(part) {
      PartsOfPath(parts);
      assert ContentOk(tree, m, sha);
    }
  }

  lemma PartsOfPath(parts: seq<Name>)
    requires forall part | part in parts :: IsSegment(part)
    ensures Split(Under(ROOT, parts), SLASH)[1..] == parts
  {
    forall part | part in parts
      ensures SLASH !in part
    {
      SegmentHasNoSlash(part);
    }
    SplitUnder(ROOT, parts);
    SplitPiece(ROOT, SLASH, []);
  }

  /**
   A manifest in order that names exactly the files of an accepted tree has no two names alike when case
   is ignored.
  */
  lemma CaseCheckIsImplied(tree: Node, members: seq<Member>)
    requires PayloadOk(tree) && StrictlyOrdered(Paths(members), BY_PATH) && SameFiles(tree, members)
    ensures forall i, j | 0 <= i < j < |members| :: Lower(members[i].path) != Lower(members[j].path)
  {
    hide Files, Lower;
    StrictIsDistinct(Paths(members));
    forall i, j | 0 <= i < j < |members|
      ensures Lower(members[i].path) != Lower(members[j].path)
    {
      var paths := Paths(members);
      assert paths[i] in paths && paths[j] in paths && paths[i] != paths[j];
      if Lower(paths[i]) == Lower(paths[j]) {
        CaseUnique(tree, paths[i], paths[j]);
      }
    }
  }
}
