/** Acceptance and extraction of an archive. */
module ArchiveExtract {
  /*
   Acceptance of an archive against its manifest, symlink-chain resolution, and the creation order of
   the extraction. The output is a logical tree: a map from paths to nodes.
  */

  import opened Options
  import opened Bytes
  import opened Sorting
  import opened TarReader
  import opened ArchiveManifest

  // ------------------------------------------------------------ alias targets

  const DOT: seq<Byte> := [46]
  const DOT_DOT: seq<Byte> := [46, 46]

  function Parent(p: Path): Path
    requires p != []
  {
    p[..|p| - 1]
  }

  /** Where one more part of a relative path leads. */
  function Next(base: Path, part: seq<Byte>): Path {
    if part == [] || part == DOT then base
    else if part == DOT_DOT && base != [] && base[|base| - 1] != DOT_DOT then base[..|base| - 1]
    else base + [part]
  }

  /** Lexical normalization of a relative path, part by part, on top of `base`. */
  function Normalize(base: Path, parts: seq<seq<Byte>>): Path
    decreases |parts|
  {
    if parts == [] then base else Normalize(Next(base, parts[0]), parts[1..])
  }

  /** Where a link leads; an absolute target leads to no listed path, whatever it names. */
  function Hop(name: Path, link: seq<Byte>): Path
    requires name != []
  {
    if link != [] && link[0] == 47 then [[]] else Normalize(Parent(name), Split(link, 47))
  }

  /** Follows aliases from `current`; None on meeting a visited one again. */
  function Walk(hops: map<Path, Path>, current: Path, visited: set<Path>): Option<Path>
    requires visited <= hops.Keys
    decreases hops.Keys - visited
  {
    if current !in hops then Some(current)
    else if current in visited then None
    else Walk(hops, hops[current], visited + {current})
  }

  method ResolveAlias(hops: map<Path, Path>, name: Path) returns (r: Option<Path>)
    requires name in hops
    ensures r == Walk(hops, hops[name], {name})
  {
    var current, visited := hops[name], {name};
    while current in hops
      invariant visited <= hops.Keys
      invariant Walk(hops, current, visited) == Walk(hops, hops[name], {name})
      decreases hops.Keys - visited
    {
      if current in visited {
        return None;
      }
      visited := visited + {current};
      current := hops[current];
    }
    return Some(current);
  }

  /** The path `k` hops on, staying put once outside the aliases. */
  function After(hops: map<Path, Path>, p: Path, k: nat): Path
    decreases k
  {
    if k == 0 || p !in hops then p else After(hops, hops[p], k - 1)
  }

  lemma {:induction false} AfterAdds(hops: map<Path, Path>, p: Path, j: nat, k: nat)
    ensures After(hops, p, j + k) == After(hops, After(hops, p, j), k)
    decreases j
  {
    if j > 0 && p in hops {
      AfterAdds(hops, hops[p], j - 1, k);
    } else if p !in hops {
      assert After(hops, p, k) == p;
    }
  }

  /** A chain that comes back to one of its aliases never leaves them. */
  lemma {:induction false} CyclesStay(hops: map<Path, Path>, n: Path, i: nat, j: nat, k: nat)
    requires i < j && After(hops, n, i) == After(hops, n, j)
    requires forall l | 0 <= l <= j :: After(hops, n, l) in hops
    ensures After(hops, n, k) in hops
    decreases k
  {
    if k > j {
      AfterAdds(hops, n, j, k - j);
      AfterAdds(hops, n, i, k - j);
      CyclesStay(hops, n, i, j, i + (k - j));
    }
  }

  /** The state of a walk that has made `j` hops from `n`. */
  ghost predicate HasWalked(hops: map<Path, Path>, n: Path, j: nat, visited: set<Path>) {
    && (forall l | 0 <= l < j :: After(hops, n, l) in hops && After(hops, n, l) in visited)
    && (forall p | p in visited :: exists l :: 0 <= l < j && After(hops, n, l) == p)
  }

  lemma {:induction false} WalkIsExact(hops: map<Path, Path>, n: Path, j: nat, visited: set<Path>, k: nat, t: Path)
    requires visited <= hops.Keys && HasWalked(hops, n, j, visited)
    ensures Walk(hops, After(hops, n, j), visited) == Some(t) ==> t !in hops && exists m :: After(hops, n, m) == t
    ensures After(hops, n, k) == t && t !in hops ==> Walk(hops, After(hops, n, j), visited) == Some(t)
    decreases hops.Keys - visited
  {
    var current := After(hops, n, j);
    if current !in hops {
      if j <= k {
        AfterAdds(hops, n, j, k - j);
      }
    } else if current in visited {
      var i :| 0 <= i < j && After(hops, n, i) == current;
      CyclesStay(hops, n, i, j, k);
    } else {
      AfterAdds(hops, n, j, 1);
      assert hops[current] == After(hops, n, j + 1);
      assert After(hops, n, j) == current;
      WalkIsExact(hops, n, j + 1, visited + {current}, k, t);
    }
  }

  /** An alias resolves exactly when its chain leaves the aliases, and then to where it leaves. */
  lemma ResolutionIsExact(hops: map<Path, Path>, name: Path, t: Path)
    requires name in hops
    ensures Walk(hops, hops[name], {name}) == Some(t) <==> t !in hops && exists k :: After(hops, name, k) == t
  {
    assert After(hops, name, 0) == name && After(hops, name, 1) == hops[name];
    assert HasWalked(hops, name, 1, {name});
    WalkIsExact(hops, name, 1, {name}, 0, t);
    if t !in hops && exists k :: After(hops, name, k) == t {
      var k :| After(hops, name, k) == t;
      WalkIsExact(hops, name, 1, {name}, k, t);
    }
  }

  // ------------------------------------------------------------ acceptance

  function MemberPaths(members: seq<Entry>): (paths: seq<Path>)
    ensures |paths| == |members|
  {
    seq(|members|, i requires 0 <= i < |members| => members[i].path)
  }

  function ExpectedKind(rows: map<Path, Row>, p: Path): Kind {
    if p == MANIFEST_PATH then Regular
    else if p == OPT_PATH then Directory
    else if p !in rows then Other
    else match rows[p]
      case DirectoryRow => Directory
      case RegularRow(_) => Regular
      case AliasRow(_) => Alias
  }

  function ExpectedSize(rows: map<Path, Row>, p: Path, manifestSize: nat): nat {
    if p == MANIFEST_PATH then manifestSize
    else if p in rows && rows[p].RegularRow? then rows[p].bytes
    else 0
  }

  predicate IsDirectory(rows: map<Path, Row>, p: Path) {
    p == OPT_PATH || (p in rows && rows[p].DirectoryRow?)
  }

  /** Kind and size as the manifest says, and every ancestor a listed directory. */
  predicate MemberOk(rows: map<Path, Row>, e: Entry, manifestSize: nat) {
    && e.kind == ExpectedKind(rows, e.path) && e.size == ExpectedSize(rows, e.path, manifestSize)
    && forall k | 0 < k < |e.path| :: IsDirectory(rows, e.path[..k])
  }

  /** Where each alias member leads. */
  function Hops(members: seq<Entry>): (hops: map<Path, Path>)
    ensures forall p :: p in hops ==> exists i :: 0 <= i < |members| && members[i].kind == Alias && members[i].path == p
  {
    if members == [] then map[]
    else
      var e := members[|members| - 1];
      var hops := Hops(members[..|members| - 1]);
      if e.kind == Alias && e.path != [] then hops[e.path := Hop(e.path, e.link)] else hops
  }

  predicate AliasOk(rows: map<Path, Row>, hops: map<Path, Path>, e: Entry) {
    && e.path in rows && rows[e.path].AliasRow? && e.path in hops
    && e.link != [] && e.link[0] != 47 && 92 !in e.link
    && PRIVATE_PATH < hops[e.path]
    && var t := rows[e.path].canonical;
       Walk(hops, hops[e.path], {e.path}) == Some(t) && t in rows && rows[t].RegularRow?
  }

  /** The member list agrees with the manifest in every respect the program checks. */
  predicate Accepted(m: Manifest, members: seq<Entry>, manifestSize: nat) {
    && RowsOk(m)
    && MemberPaths(members) == ExpectedNames(m)
    && var rows := RowMap(AllRows(m));
       && (forall i | 0 <= i < |members| :: MemberOk(rows, members[i], manifestSize))
       && (forall i | 0 <= i < |members| && members[i].kind == Alias :: AliasOk(rows, Hops(members), members[i]))
  }

  method ValidateMembers(rows: map<Path, Row>, members: seq<Entry>, manifestSize: nat) returns (ok: bool)
    ensures ok <==> forall i | 0 <= i < |members| :: MemberOk(rows, members[i], manifestSize)
  {
    for i := 0 to |members|
      invariant forall j | 0 <= j < i :: MemberOk(rows, members[j], manifestSize)
    {
      var e := members[i];
      if e.kind != ExpectedKind(rows, e.path) || e.size != ExpectedSize(rows, e.path, manifestSize) {
        return false;
      }
      for k := 1 to if |e.path| == 0 then 1 else |e.path|
        invariant forall l | 0 < l < k :: IsDirectory(rows, e.path[..l])
      {
        if !IsDirectory(rows, e.path[..k]) {
          return false;
        }
      }
    }
    return true;
  }

  method ValidateAliases(rows: map<Path, Row>, members: seq<Entry>) returns (ok: bool)
    ensures ok <==> forall i | 0 <= i < |members| && members[i].kind == Alias ::
      AliasOk(rows, Hops(members), members[i])
  {
    var hops := Hops(members);
    for i := 0 to |members|
      invariant forall j | 0 <= j < i && members[j].kind == Alias :: AliasOk(rows, hops, members[j])
    {
      var e := members[i];
      if e.kind == Alias {
        if !(e.path in rows && rows[e.path].AliasRow? && e.path in hops) {
          return false;
        }
        if e.link == [] || e.link[0] == 47 || 92 in e.link || !(PRIVATE_PATH < hops[e.path]) {
          return false;
        }
        var current := ResolveAlias(hops, e.path);
        var canonical := rows[e.path].canonical;
        if current != Some(canonical) || !(canonical in rows && rows[canonical].RegularRow?) {
          return false;
        }
      }
    }
    return true;
  }

  /** The whole check of the archive's members against its manifest. */
  method ValidateArchive(m: Manifest, members: seq<Entry>, manifestSize: nat) returns (ok: bool)
    ensures ok <==> Accepted(m, members, manifestSize)
  {
    hide RowsOk, MemberOk, AliasOk, ExpectedNames, AllRows, RowMap, MemberPaths;
    var good, rows, names, _ := ManifestRows(m);
    if !good || MemberPaths(members) != names {
      return false;
    }
    var kinds := ValidateMembers(rows, members, manifestSize);
    if !kinds {
      return false;
    }
    ok := ValidateAliases(rows, members);
  }

  // ------------------------------------------------------------ aliases of one chain

  /** In an accepted archive every alias chain ends at the regular file its first alias declares. */
  lemma ChainsEndAtCanonical(m: Manifest, members: seq<Entry>, manifestSize: nat, i: nat)
    requires Accepted(m, members, manifestSize) && i < |members| && members[i].kind == Alias
    ensures
      var rows, hops, p := RowMap(AllRows(m)), Hops(members), members[i].path;
      && p in rows && rows[p].AliasRow? && rows[p].canonical in rows && rows[rows[p].canonical].RegularRow?
      && rows[p].canonical !in hops && exists k :: After(hops, p, k) == rows[p].canonical
  {
    var rows, hops, p := RowMap(AllRows(m)), Hops(members), members[i].path;
    assert AliasOk(rows, hops, members[i]);
    hide Accepted;
    ResolutionIsExact(hops, p, rows[p].canonical);
  }

  /** A chain leaves the aliases at one path only. */
  lemma ExitIsUnique(hops: map<Path, Path>, p: Path, a: nat, b: nat)
    requires After(hops, p, a) !in hops && After(hops, p, b) !in hops
    ensures After(hops, p, a) == After(hops, p, b)
  {
    if a <= b {
      AfterAdds(hops, p, a, b - a);
    } else {
      AfterAdds(hops, p, b, a - b);
    }
  }

  /** All aliases along one chain declare the same canonical file. */
  lemma ChainsShareCanonical(m: Manifest, members: seq<Entry>, manifestSize: nat, i: nat, j: nat, k: nat)
    requires Accepted(m, members, manifestSize) && i < |members| && members[i].kind == Alias
    requires j < |members| && members[j].kind == Alias && After(Hops(members), members[i].path, k) == members[j].path
    ensures
      var rows := RowMap(AllRows(m));
      && members[i].path in rows && rows[members[i].path].AliasRow?
      && members[j].path in rows && rows[members[j].path].AliasRow?
      && rows[members[i].path].canonical == rows[members[j].path].canonical
  {
    hide Accepted, RowMap, AllRows, Hops, After;
    var rows, hops, p, q := RowMap(AllRows(m)), Hops(members), members[i].path, members[j].path;
    ChainsEndAtCanonical(m, members, manifestSize, i);
    ChainsEndAtCanonical(m, members, manifestSize, j);
    var a: nat :| After(hops, p, a) == rows[p].canonical;
    var b: nat :| After(hops, q, b) == rows[q].canonical;
    AfterAdds(hops, p, k, b);
    ExitIsUnique(hops, p, a, k + b);
  }

  // ------------------------------------------------------------ extraction

  datatype Node = DirNode | FileNode(size: nat) | LinkNode(link: seq<Byte>)

  type Tree = map<Path, Node>

  function NodeOf(e: Entry): Node {
    if e.kind == Directory then DirNode else if e.kind == Regular then FileNode(e.size) else LinkNode(e.link)
  }

  /** An exclusive creation: a fresh path under an existing real directory. */
  function Create(tree: Tree, e: Entry): Option<Tree> {
    if e.path != [] && e.path !in tree && Parent(e.path) in tree && tree[Parent(e.path)] == DirNode
    then Some(tree[e.path := NodeOf(e)]) else None
  }

  function CreateAll(tree: Tree, es: seq<Entry>): Option<Tree>
    decreases |es|
  {
    if es == [] then Some(tree)
    else
      match Create(tree, es[0])
      case Some(next) => CreateAll(next, es[1..])
      case None => None
  }

  predicate ExtractsAsDirectory(e: Entry) {
    e.path == OPT_PATH || (PRIVATE_PATH <= e.path && e.kind == Directory)
  }

  predicate ExtractsAsRegular(e: Entry) {
    e.path != MANIFEST_PATH && e.kind == Regular
  }

  predicate ExtractsAsAlias(e: Entry) {
    e.path != MANIFEST_PATH && e.kind == Alias
  }

  function Select(es: seq<Entry>, keep: Entry -> bool): (r: seq<Entry>)
    ensures forall e :: e in r <==> e in es && keep(e)
  {
    if es == [] then []
    else if keep(es[0]) then [es[0]] + Select(es[1..], keep)
    else Select(es[1..], keep)
  }

  const ENTRIES_BY_DEPTH: (Entry, Entry) -> bool := (a: Entry, b: Entry) => BY_DEPTH(a.path, b.path)

  /** The manifest file, the directories by depth, the regular files, then the links. */
  function CreationOrder(members: seq<Entry>, manifestSize: nat): seq<Entry> {
    [Entry(MANIFEST_PATH, Regular, manifestSize, [])]
    + Sort(Select(members, ExtractsAsDirectory), ENTRIES_BY_DEPTH)
    + Select(members, ExtractsAsRegular)
    + Select(members, ExtractsAsAlias)
  }

  const EMPTY_TREE: Tree := map[[] := DirNode]

  lemma {:induction false} CreateAllAppends(tree: Tree, es: seq<Entry>, e: Entry)
    ensures CreateAll(tree, es + [e]) ==
      match CreateAll(tree, es) { case Some(next) => Create(next, e) case None => None }
    decreases |es|
  {
    if es == [] {
      assert (es + [e])[1..] == [];
    } else {
      assert (es + [e])[1..] == es[1..] + [e];
      match Create(tree, es[0]) {
        case Some(next) => CreateAllAppends(next, es[1..], e);
        case None =>
      }
    }
  }

  /** Creates one entry after another, stopping at the first that fails. */
  method ExtractMembers(members: seq<Entry>, manifestSize: nat) returns (r: Option<Tree>)
    ensures r == CreateAll(EMPTY_TREE, CreationOrder(members, manifestSize))
  {
    var order := CreationOrder(members, manifestSize);
    var tree := EMPTY_TREE;
    hide Create, CreationOrder, EMPTY_TREE;
    for i := 0 to |order|
      invariant CreateAll(EMPTY_TREE, order[..i]) == Some(tree)
    {
      assert order[..i + 1] == order[..i] + [order[i]];
      CreateAllAppends(EMPTY_TREE, order[..i], order[i]);
      var next := Create(tree, order[i]);
      if next.None? {
        FailureIsFinal(EMPTY_TREE, order, i + 1);
        return None;
      }
      tree := next.value;
    }
    assert order[..|order|] == order;
    return Some(tree);
  }

  lemma {:induction false} FailureIsFinal(tree: Tree, es: seq<Entry>, i: nat)
    requires i <= |es| && CreateAll(tree, es[..i]).None?
    ensures CreateAll(tree, es).None?
    decreases |es|
  {
    assert es[..i][1..] == es[1..][..i - 1] && es[..i][0] == es[0];
    if Create(tree, es[0]).Some? {
      FailureIsFinal(Create(tree, es[0]).value, es[1..], i - 1);
    }
  }

  // ------------------------------------------------------------ accepted archives extract cleanly

  function Elements(es: seq<Entry>): set<Entry> {
    set e | e in es
  }

  function PathsOf(es: set<Entry>): set<Path> {
    set e | e in es :: e.path
  }

  /** The tree holds exactly the root and these entries. */
  ghost predicate Holds(tree: Tree, es: set<Entry>) {
    && tree.Keys == {[]} + PathsOf(es)
    && tree[[]] == DirNode
    && forall e | e in es :: tree[e.path] == NodeOf(e)
  }

  /** The parent is the root or a directory among `es`. */
  ghost predicate HasParent(e: Entry, es: set<Entry>) {
    e.path != [] && (Parent(e.path) == [] || exists d :: d in es && d.kind == Directory && d.path == Parent(e.path))
  }

  /** The entry at `i` has a new path, and its parent stands before it. */
  ghost predicate PlacedAt(order: seq<Entry>, done: set<Entry>, i: nat)
    requires i < |order|
  {
    && order[i].path !in PathsOf(done) && order[i].path !in PathsOf(Elements(order[..i]))
    && HasParent(order[i], done + Elements(order[..i]))
  }

  ghost predicate InOrder(order: seq<Entry>, done: set<Entry>) {
    forall i | 0 <= i < |order| :: PlacedAt(order, done, i)
  }

  lemma OrderOfRest(order: seq<Entry>, done: set<Entry>)
    requires order != [] && InOrder(order, done)
    ensures InOrder(order[1..], done + {order[0]})
  {
    var e, rest := order[0], order[1..];
    forall i | 0 <= i < |rest|
      ensures PlacedAt(rest, done + {e}, i)
    {
      assert PlacedAt(order, done, i + 1);
      assert order[..i + 1] == [e] + rest[..i];
      assert Elements(order[..i + 1]) == {e} + Elements(rest[..i]);
      assert done + {e} + Elements(rest[..i]) == done + Elements(order[..i + 1]);
    }
  }

  lemma CreateOne(tree: Tree, e: Entry, done: set<Entry>)
    requires Holds(tree, done) && e.path !in PathsOf(done) && HasParent(e, done)
    ensures Create(tree, e).Some? && Holds(Create(tree, e).value, done + {e})
  {
    assert PathsOf(done + {e}) == PathsOf(done) + {e.path};
  }

  lemma {:induction false} CreateAllSucceeds(tree: Tree, order: seq<Entry>, done: set<Entry>)
    requires Holds(tree, done) && InOrder(order, done)
    ensures CreateAll(tree, order).Some? && Holds(CreateAll(tree, order).value, done + Elements(order))
    decreases |order|
  {
    if order == [] {
      assert done + Elements(order) == done;
    } else {
      assert PlacedAt(order, done, 0);
      assert done + Elements(order[..0]) == done;
      CreateOne(tree, order[0], done);
      OrderOfRest(order, done);
      hide Create, Holds, InOrder, HasParent;
      CreateAllSucceeds(Create(tree, order[0]).value, order[1..], done + {order[0]});
      assert order == [order[0]] + order[1..];
      assert done + {order[0]} + Elements(order[1..]) == done + Elements(order);
    }
  }

  // ------------------------------------------------------------ what acceptance says of one member

  lemma ExpectedNamesHas(m: Manifest, p: Path)
    ensures p in ExpectedNames(m) <==>
      p == OPT_PATH || p == MANIFEST_PATH || p in m.directories || p in Paths(m.regulars) || p in Paths(m.aliases)
  {
    SortHas(Without(m.directories, OPT_PATH), BY_DEPTH, p);
    SortHas(Paths(m.regulars), BY_TEXT, p);
    SortHas(Paths(m.aliases), BY_TEXT, p);
  }

  /** Every listed path has a row. */
  lemma RowsContain(m: Manifest, p: Path)
    requires p in m.directories || p in Paths(m.regulars) || p in Paths(m.aliases)
    ensures p in RowMap(AllRows(m))
  {
    var all := AllRows(m);
    hide RowMap;
    if p in m.directories {
      var i :| 0 <= i < |m.directories| && m.directories[i] == p;
      assert Paths(all)[i] == p;
    } else if p in Paths(m.regulars) {
      var i :| 0 <= i < |m.regulars| && Paths(m.regulars)[i] == p;
      assert Paths(all)[|m.directories| + i] == p;
    } else {
      var i :| 0 <= i < |m.aliases| && Paths(m.aliases)[i] == p;
      assert Paths(all)[|m.directories| + |m.regulars| + i] == p;
    }
  }

  /** Every row belongs to a listed, safe path; a directory row to a listed directory. */
  lemma RowsHave(m: Manifest, p: Path)
    requires RowsOk(m) && p in RowMap(AllRows(m))
    ensures SafePath(p) && (p in m.directories || p in Paths(m.regulars) || p in Paths(m.aliases))
    ensures RowMap(AllRows(m))[p] == DirectoryRow ==> p in m.directories
  {
    var all := AllRows(m);
    var d, r := |m.directories|, |m.regulars|;
    hide RowMap, SafePath, ExpectedNames;
    var i :| 0 <= i < |all| && Paths(all)[i] == p;
    RowMapAt(all, i);
    if i < d {
      assert all[i] == (m.directories[i], DirectoryRow);
    } else if i < d + r {
      assert all[i].0 == m.regulars[i - d].0 == Paths(m.regulars)[i - d];
    } else {
      assert all[i].0 == m.aliases[i - d - r].0 == Paths(m.aliases)[i - d - r];
    }
  }

  lemma MemberHas(m: Manifest, members: seq<Entry>, manifestSize: nat, e: Entry)
    requires Accepted(m, members, manifestSize) && e in members
    ensures e.path in ExpectedNames(m) && MemberOk(RowMap(AllRows(m)), e, manifestSize) && e.path != []
    ensures e.kind != Other && (e.path == MANIFEST_PATH ==> e.kind == Regular && e.size == manifestSize)
    ensures e.kind == Directory ==> ExtractsAsDirectory(e)
  {
    var i :| 0 <= i < |members| && members[i] == e;
    assert MemberPaths(members)[i] == e.path;
    assert MemberOk(RowMap(AllRows(m)), members[i], manifestSize);
    assert RowsOk(m);
    hide Accepted, MemberOk, RowsOk, RowMap, AllRows, ExpectedNames, Hops;
    ExpectedNamesHas(m, e.path);
    if e.path != OPT_PATH && e.path != MANIFEST_PATH {
      RowsContain(m, e.path);
      RowsHave(m, e.path);
    }
    KindOf(RowMap(AllRows(m)), e, manifestSize);
  }

  lemma KindOf(rows: map<Path, Row>, e: Entry, manifestSize: nat)
    requires MemberOk(rows, e, manifestSize)
    requires e.path == OPT_PATH || e.path == MANIFEST_PATH || (e.path in rows && SafePath(e.path))
    ensures e.path != [] && e.kind != Other
    ensures e.path == MANIFEST_PATH ==> e.kind == Regular && e.size == manifestSize
    ensures e.kind == Directory ==> ExtractsAsDirectory(e)
  {
  }

  lemma PathsAreDistinct(m: Manifest, members: seq<Entry>, manifestSize: nat)
    requires Accepted(m, members, manifestSize)
    ensures Distinct(MemberPaths(members))
  {
    hide Hops, AliasOk, MemberOk, AllRows, RowMap, ExpectedNames, MemberPaths;
  }

  lemma MembersAreDistinct(m: Manifest, members: seq<Entry>, manifestSize: nat, e: Entry, f: Entry)
    requires Accepted(m, members, manifestSize) && e in members && f in members && e.path == f.path
    ensures e == f
  {
    hide *;
    PathsAreDistinct(m, members, manifestSize);
    MembersOfPaths(members, e, f);
  }

  lemma MembersOfPaths(members: seq<Entry>, e: Entry, f: Entry)
    requires Distinct(MemberPaths(members)) && e in members && f in members && e.path == f.path
    ensures e == f
  {
    var i :| 0 <= i < |members| && members[i] == e;
    var j :| 0 <= j < |members| && members[j] == f;
    assert MemberPaths(members)[i] == MemberPaths(members)[j];
  }

  /** The parent of a member below the root is itself a directory member. */
  lemma ParentIsMember(m: Manifest, members: seq<Entry>, manifestSize: nat, e: Entry)
    requires Accepted(m, members, manifestSize) && e in members
    ensures e.path != []
    ensures Parent(e.path) == [] || (exists d :: d in members && d.kind == Directory && d.path == Parent(e.path))
  {
    MemberHas(m, members, manifestSize, e);
    if |e.path| > 1 {
      var rows, p := RowMap(AllRows(m)), Parent(e.path);
      assert IsDirectory(rows, p) by {
        assert p == e.path[..|e.path| - 1];
      }
      assert RowsOk(m) && MemberPaths(members) == ExpectedNames(m);
      hide Accepted, RowsOk, AllRows, RowMap, ExpectedNames, Hops;
      if p in RowMap(AllRows(m)) {
        RowsHave(m, p);
      }
      ExpectedNamesHas(m, p);
      assert p in MemberPaths(members);
      var j :| 0 <= j < |members| && MemberPaths(members)[j] == p;
      MemberHas(m, members, manifestSize, members[j]);
      assert members[j].kind == Directory;
    }
  }

  // ------------------------------------------------------------ the extraction succeeds

  lemma InOrderAppend(a: seq<Entry>, b: seq<Entry>, done: set<Entry>)
    requires InOrder(a, done) && InOrder(b, done + Elements(a))
    ensures InOrder(a + b, done)
  {
    var all := a + b;
    forall i | 0 <= i < |all|
      ensures PlacedAt(all, done, i)
    {
      if i < |a| {
        assert PlacedAt(a, done, i);
        assert all[..i] == a[..i];
      } else {
        assert PlacedAt(b, done + Elements(a), i - |a|);
        assert all[..i] == a + b[..i - |a|];
        assert done + Elements(all[..i]) == done + Elements(a) + Elements(b[..i - |a|]);
      }
    }
  }

  /** Distinct members, with new paths, whose parents are already there. */
  lemma GroupInOrder(
      m: Manifest, members: seq<Entry>, manifestSize: nat, group: seq<Entry>, done: set<Entry>)
    requires Accepted(m, members, manifestSize)
    requires Distinct(group) && (forall e | e in group :: e in members && e !in done)
    requires forall e | e in done :: e in members
    requires forall i | 0 <= i < |group| :: HasParent(group[i], done + Elements(group[..i]))
    ensures InOrder(group, done)
  {
    hide Accepted, HasParent;
    forall i | 0 <= i < |group|
      ensures PlacedAt(group, done, i)
    {
      forall e | e in done + Elements(group[..i]) && e.path == group[i].path
        ensures false
      {
        MembersAreDistinct(m, members, manifestSize, e, group[i]);
      }
    }
  }

  lemma {:induction false} SelectDistinct(es: seq<Entry>, keep: Entry -> bool)
    requires Distinct(es)
    ensures Distinct(Select(es, keep))
  {
    if es != [] {
      SelectDistinct(es[1..], keep);
      assert forall e | e in es[1..] :: e != es[0];
    }
  }

  lemma DirectoriesByDepth(members: seq<Entry>) returns (dirs: seq<Entry>)
    requires Distinct(members)
    ensures dirs == Sort(Select(members, ExtractsAsDirectory), ENTRIES_BY_DEPTH) && Distinct(dirs)
    ensures forall e :: e in dirs <==> e in members && ExtractsAsDirectory(e)
    ensures forall i, j | 0 <= i < |dirs| && 0 <= j < |dirs| && |dirs[i].path| < |dirs[j].path| :: i < j
  {
    var chosen := Select(members, ExtractsAsDirectory);
    dirs := Sort(chosen, ENTRIES_BY_DEPTH);
    SelectDistinct(members, ExtractsAsDirectory);
    SortPermutes(chosen, ENTRIES_BY_DEPTH);
    PermutationKeepsDistinct(chosen, dirs);
    ByDepthIsWeakOrder();
    assert WeakOrder(ENTRIES_BY_DEPTH) by {
      EntriesByDepthIsWeakOrder();
    }
    SortOrders(chosen, ENTRIES_BY_DEPTH);
    hide Sort, Select, WeakOrder, Distinct, JoinPath, Less;
    forall e
      ensures e in dirs <==> e in chosen
    {
      SortHas(chosen, ENTRIES_BY_DEPTH, e);
    }
  }

  lemma EntriesByDepthIsWeakOrder()
    ensures WeakOrder(ENTRIES_BY_DEPTH)
  {
    ByDepthIsWeakOrder();
    var less := ENTRIES_BY_DEPTH;
    forall a: Entry, b: Entry, c: Entry
      ensures less(a, b) && less(b, c) ==> less(a, c)
      ensures less(a, c) ==> less(a, b) || less(b, c)
      ensures !less(a, a)
    {
      assert less(a, b) == BY_DEPTH(a.path, b.path) && less(b, c) == BY_DEPTH(b.path, c.path);
      assert less(a, c) == BY_DEPTH(a.path, c.path) && less(a, a) == BY_DEPTH(a.path, a.path);
      hide BY_DEPTH, ENTRIES_BY_DEPTH;
    }
  }

  lemma DirectoriesInOrder(m: Manifest, members: seq<Entry>, manifestSize: nat, dirs: seq<Entry>, done: set<Entry>)
    requires Accepted(m, members, manifestSize) && Distinct(dirs)
    requires forall e :: e in dirs <==> e in members && ExtractsAsDirectory(e)
    requires forall i, j | 0 <= i < |dirs| && 0 <= j < |dirs| && |dirs[i].path| < |dirs[j].path| :: i < j
    requires forall e | e in done :: e in members && !ExtractsAsDirectory(e)
    ensures InOrder(dirs, done)
  {
    hide Accepted, ExtractsAsDirectory;
    forall i | 0 <= i < |dirs|
      ensures HasParent(dirs[i], done + Elements(dirs[..i]))
    {
      ParentIsMember(m, members, manifestSize, dirs[i]);
      if Parent(dirs[i].path) != [] {
        var d :| d in members && d.kind == Directory && d.path == Parent(dirs[i].path);
        MemberHas(m, members, manifestSize, d);
        assert d in dirs;
        var j :| 0 <= j < |dirs| && dirs[j] == d;
        assert dirs[..i][j] == d;
      }
    }
    GroupInOrder(m, members, manifestSize, dirs, done);
  }

  lemma LeavesInOrder(m: Manifest, members: seq<Entry>, manifestSize: nat, group: seq<Entry>, done: set<Entry>)
    requires Accepted(m, members, manifestSize) && Distinct(group)
    requires forall e | e in group :: e in members && e !in done
    requires forall e | e in done :: e in members
    requires forall e | e in members && ExtractsAsDirectory(e) :: e in done
    ensures InOrder(group, done)
  {
    hide Accepted, ExtractsAsDirectory;
    forall i | 0 <= i < |group|
      ensures HasParent(group[i], done + Elements(group[..i]))
    {
      assert group[i] in group;
      ParentIsMember(m, members, manifestSize, group[i]);
      if Parent(group[i].path) != [] {
        var d :| d in members && d.kind == Directory && d.path == Parent(group[i].path);
        MemberHas(m, members, manifestSize, d);
      }
    }
    GroupInOrder(m, members, manifestSize, group, done);
  }

  lemma CreateAllJoins(tree: Tree, a: seq<Entry>, b: seq<Entry>)
    requires CreateAll(tree, a).Some?
    ensures CreateAll(tree, a + b) == CreateAll(CreateAll(tree, a).value, b)
    decreases |a|
  {
    if a == [] {
      assert a + b == b;
    } else {
      assert (a + b)[1..] == a[1..] + b;
      CreateAllJoins(Create(tree, a[0]).value, a[1..], b);
    }
  }

  lemma ManifestMember(m: Manifest, members: seq<Entry>, manifestSize: nat) returns (e: Entry)
    requires Accepted(m, members, manifestSize)
    ensures e in members && e.path == MANIFEST_PATH && e.kind == Regular && e.size == manifestSize
    ensures Distinct(members)
  {
    hide MemberOk, AliasOk, AllRows, RowMap, Hops, ExpectedNames;
    ExpectedNamesHas(m, MANIFEST_PATH);
    assert MANIFEST_PATH in MemberPaths(members);
    var i :| 0 <= i < |members| && MemberPaths(members)[i] == MANIFEST_PATH;
    e := members[i];
    MemberHas(m, members, manifestSize, e);
    forall a, b | 0 <= a < b < |members|
      ensures members[a] != members[b]
    {
      assert MemberPaths(members)[a] != MemberPaths(members)[b];
    }
  }

  /** What stands after the manifest file is in order. */
  lemma AllElements(members: seq<Entry>, manifest: Entry, rest: seq<Entry>)
    requires manifest in members && (forall e | e in members :: e == manifest || e in rest)
    requires forall e | e in rest :: e in members
    ensures {manifest} + Elements(rest) == Elements(members)
  {
  }

  /** Directories by depth, then the two groups of leaves. */
  lemma ThreeGroupsInOrder(
      m: Manifest, members: seq<Entry>, manifestSize: nat, manifest: Entry,
      dirs: seq<Entry>, regulars: seq<Entry>, aliases: seq<Entry>)
    requires Accepted(m, members, manifestSize) && manifest in members && !ExtractsAsDirectory(manifest)
    requires Distinct(dirs) && Distinct(regulars) && Distinct(aliases)
    requires forall e :: e in dirs <==> e in members && ExtractsAsDirectory(e)
    requires forall i, j | 0 <= i < |dirs| && 0 <= j < |dirs| && |dirs[i].path| < |dirs[j].path| :: i < j
    requires forall e | e in regulars :: e in members && e != manifest && e !in dirs
    requires forall e | e in aliases :: e in members && e != manifest && e !in dirs && e !in regulars
    ensures InOrder(dirs + regulars + aliases, {manifest})
  {
    hide Accepted, InOrder, ExtractsAsDirectory;
    DirectoriesInOrder(m, members, manifestSize, dirs, {manifest});
    LeavesInOrder(m, members, manifestSize, regulars, {manifest} + Elements(dirs));
    InOrderAppend(dirs, regulars, {manifest});
    ElementsAppend(dirs, regulars);
    LeavesInOrder(m, members, manifestSize, aliases, {manifest} + Elements(dirs + regulars));
    InOrderAppend(dirs + regulars, aliases, {manifest});
  }

  lemma ElementsAppend(a: seq<Entry>, b: seq<Entry>)
    ensures Elements(a + b) == Elements(a) + Elements(b)
  {
  }

  lemma RestInOrder(m: Manifest, members: seq<Entry>, manifestSize: nat, manifest: Entry) returns (rest: seq<Entry>)
    requires Accepted(m, members, manifestSize) && Distinct(members)
    requires manifest in members && manifest.path == MANIFEST_PATH && manifest.kind == Regular
    ensures CreationOrder(members, manifestSize) == [Entry(MANIFEST_PATH, Regular, manifestSize, [])] + rest
    ensures InOrder(rest, {manifest}) && {manifest} + Elements(rest) == Elements(members)
  {
    hide Accepted, InOrder, ExtractsAsDirectory, ExtractsAsRegular, ExtractsAsAlias, Elements, Distinct;
    var dirs := DirectoriesByDepth(members);
    var regulars, aliases := Select(members, ExtractsAsRegular), Select(members, ExtractsAsAlias);
    SelectDistinct(members, ExtractsAsRegular);
    SelectDistinct(members, ExtractsAsAlias);
    rest := dirs + regulars + aliases;
    OrderIsFirstAndRest(members, manifestSize, dirs, regulars, aliases);
    hide CreationOrder, Select;
    forall e | e in members
      ensures e == manifest || e in rest
      ensures e in dirs ==> e != manifest && e !in regulars && e !in aliases
      ensures e in regulars ==> e != manifest && e !in aliases
      ensures e in aliases ==> e != manifest
    {
      MemberIsExtracted(m, members, manifestSize, manifest, e);
    }
    ThreeGroupsInOrder(m, members, manifestSize, manifest, dirs, regulars, aliases);
    AllElements(members, manifest, rest);
  }

  lemma OrderIsFirstAndRest(
      members: seq<Entry>, manifestSize: nat, dirs: seq<Entry>, regulars: seq<Entry>, aliases: seq<Entry>)
    requires dirs == Sort(Select(members, ExtractsAsDirectory), ENTRIES_BY_DEPTH)
    requires regulars == Select(members, ExtractsAsRegular) && aliases == Select(members, ExtractsAsAlias)
    ensures CreationOrder(members, manifestSize) ==
      [Entry(MANIFEST_PATH, Regular, manifestSize, [])] + (dirs + regulars + aliases)
  {
    var first := [Entry(MANIFEST_PATH, Regular, manifestSize, [])];
    assert first + dirs + regulars + aliases == first + (dirs + regulars + aliases);
  }

  lemma MemberIsExtracted(m: Manifest, members: seq<Entry>, manifestSize: nat, manifest: Entry, e: Entry)
    requires Accepted(m, members, manifestSize) && e in members
    requires manifest in members && manifest.path == MANIFEST_PATH && manifest.kind == Regular
    ensures e == manifest || ExtractsAsDirectory(e) || ExtractsAsRegular(e) || ExtractsAsAlias(e)
    ensures ExtractsAsDirectory(e) ==> e != manifest && !ExtractsAsRegular(e) && !ExtractsAsAlias(e)
    ensures ExtractsAsRegular(e) ==> e != manifest && !ExtractsAsAlias(e)
    ensures ExtractsAsAlias(e) ==> e != manifest
  {
    hide Accepted;
    MemberHas(m, members, manifestSize, e);
    if e.path == MANIFEST_PATH {
      MembersAreDistinct(m, members, manifestSize, e, manifest);
    }
    if e.path == OPT_PATH {
      OptIsDirectory(m, members, manifestSize, e);
    }
  }

  lemma OptIsDirectory(m: Manifest, members: seq<Entry>, manifestSize: nat, e: Entry)
    requires Accepted(m, members, manifestSize) && e in members && e.path == OPT_PATH
    ensures e.kind == Directory
  {
    MemberHas(m, members, manifestSize, e);
    assert OPT_PATH != MANIFEST_PATH by {
      assert |OPT| != |MANIFEST|;
    }
    hide Accepted;
  }

  lemma ManifestIsCreated(e: Entry, manifestSize: nat)
    requires e.path == MANIFEST_PATH && e.kind == Regular && e.size == manifestSize
    ensures
      var r := CreateAll(EMPTY_TREE, [Entry(MANIFEST_PATH, Regular, manifestSize, [])]);
      r.Some? && Holds(r.value, {e})
  {
    var first := Entry(MANIFEST_PATH, Regular, manifestSize, []);
    assert Parent(MANIFEST_PATH) == [];
    assert Create(EMPTY_TREE, first) == Some(EMPTY_TREE[MANIFEST_PATH := FileNode(manifestSize)]);
    assert PathsOf({e}) == {MANIFEST_PATH};
  }

  /** Every creation of an accepted archive's extraction succeeds, and the tree ends as exactly its members. */
  lemma AcceptedExtracts(m: Manifest, members: seq<Entry>, manifestSize: nat)
    requires Accepted(m, members, manifestSize)
    ensures
      var r := CreateAll(EMPTY_TREE, CreationOrder(members, manifestSize));
      r.Some? && Holds(r.value, Elements(members))
  {
    hide Accepted, CreationOrder, InOrder, Holds, CreateAll, EMPTY_TREE;
    var manifest := ManifestMember(m, members, manifestSize);
    var rest := RestInOrder(m, members, manifestSize, manifest);
    var first := [Entry(MANIFEST_PATH, Regular, manifestSize, [])];
    ManifestIsCreated(manifest, manifestSize);
    var tree := CreateAll(EMPTY_TREE, first).value;
    CreateAllJoins(EMPTY_TREE, first, rest);
    CreateAllSucceeds(tree, rest, {manifest});
  }

  /** That tree, in the manifest's terms. */
  lemma ExtractedTreeIsManifest(m: Manifest, members: seq<Entry>, manifestSize: nat, p: Path)
    requires Accepted(m, members, manifestSize)
    ensures
      var r := CreateAll(EMPTY_TREE, CreationOrder(members, manifestSize));
      var rows := RowMap(AllRows(m));
      && r.Some?
      && (p in r.value <==> p == [] || p == OPT_PATH || p == MANIFEST_PATH || p in rows)
      && (p in rows && p != OPT_PATH && p != MANIFEST_PATH ==>
            match rows[p]
            case DirectoryRow => r.value[p] == DirNode
            case RegularRow(bytes) => r.value[p] == FileNode(bytes)
            case AliasRow(_) => r.value[p].LinkNode?)
  {
    AcceptedExtracts(m, members, manifestSize);
    var tree := CreateAll(EMPTY_TREE, CreationOrder(members, manifestSize)).value;
    var rows := RowMap(AllRows(m));
    ExpectedNamesHas(m, p);
    assert RowsOk(m) && MemberPaths(members) == ExpectedNames(m);
    hide Accepted, RowsOk, CreationOrder, ExpectedNames, CreateAll, AllRows, RowMap;
    if p in rows {
      RowsHave(m, p);
    } else if p in m.directories || p in Paths(m.regulars) || p in Paths(m.aliases) {
      RowsContain(m, p);
    }
    if p in MemberPaths(members) {
      var i :| 0 <= i < |members| && MemberPaths(members)[i] == p;
      assert members[i] in Elements(members);
      assert p in PathsOf(Elements(members));
      MemberHas(m, members, manifestSize, members[i]);
    } else {
      forall e | e in Elements(members)
        ensures e.path != p
      {
        var i :| 0 <= i < |members| && members[i] == e;
        assert MemberPaths(members)[i] == e.path;
      }
      assert p !in PathsOf(Elements(members));
    }
  }
}
