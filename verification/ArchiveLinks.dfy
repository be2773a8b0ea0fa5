/** Where the links of an extracted archive lead. */
module ArchiveLinks {
  /*
   The program resolves an alias on names alone. Here the same link is followed part by part in the
   extracted tree, as an operating system does. Whatever is reached is the canonical file; it is reached
   exactly when every link of the chain turns (at an empty part, a "." or a "..") only in directories.
  */

  import opened Options
  import opened Bytes
  import opened Sorting
  import opened TarReader
  import opened ArchiveManifest
  import opened ArchiveExtract

  // ------------------------------------------------------------ what a link names

  predicate IsName(part: seq<Byte>) {
    part != [] && part != DOT && part != DOT_DOT
  }

  lemma {:induction false} NormalizeJoins(base: Path, a: seq<seq<Byte>>, b: seq<seq<Byte>>)
    ensures Normalize(base, a + b) == Normalize(Normalize(base, a), b)
    decreases |a|
  {
    if a == [] {
      assert a + b == b;
    } else {
      assert (a + b)[1..] == a[1..] + b;
      NormalizeJoins(Next(base, a[0]), a[1..], b);
    }
  }

  lemma {:induction false} NamesDescend(base: Path, names: seq<seq<Byte>>)
    requires forall i | 0 <= i < |names| :: IsName(names[i])
    ensures Normalize(base, names) == base + names
    decreases |names|
  {
    if names != [] {
      NamesDescend(base + [names[0]], names[1..]);
      assert base + [names[0]] + names[1..] == base + names;
    }
  }

  function Ups(k: nat): seq<seq<Byte>> {
    seq(k, i => DOT_DOT)
  }

  lemma {:induction false} UpsClimb(base: Path, k: nat)
    requires k <= |base| && DOT_DOT !in base
    ensures Normalize(base, Ups(k)) == base[..|base| - k]
    decreases k
  {
    if k > 0 {
      assert base[|base| - 1] in base;
      assert Ups(k)[1..] == Ups(k - 1);
      UpsClimb(base[..|base| - 1], k - 1);
    }
  }

  lemma OneStep(base: Path, part: seq<Byte>)
    ensures Normalize(base, [part]) == Next(base, part)
  {
    var rest: seq<seq<Byte>> := [part][1..];
    assert rest == [];
  }

  /** Empty parts and "." change nothing. */
  lemma DotsStay(base: Path, a: seq<seq<Byte>>, dot: seq<Byte>, b: seq<seq<Byte>>)
    requires !IsName(dot) && dot != DOT_DOT
    ensures Normalize(base, a + [dot] + b) == Normalize(base, a + b)
  {
    NormalizeJoins(base, a + [dot], b);
    NormalizeJoins(base, a, [dot]);
    NormalizeJoins(base, a, b);
    OneStep(Normalize(base, a), dot);
  }

  lemma {:induction false} SplitJoined(parts: Path)
    requires parts != [] && forall i | 0 <= i < |parts| :: 47 !in parts[i]
    ensures Split(JoinPath(parts), 47) == parts
  {
    SplitPiece(parts[0], 47, JoinPath(parts[1..]));
    if |parts| > 1 {
      SplitJoined(parts[1..]);
      assert parts == [parts[0]] + parts[1..];
    }
  }

  lemma HopOfParts(name: Path, parts: Path)
    requires name != [] && parts != [] && parts[0] != [] && forall i | 0 <= i < |parts| :: 47 !in parts[i]
    ensures Hop(name, JoinPath(parts)) == Normalize(Parent(name), parts)
  {
    hide Normalize;
    SplitJoined(parts);
    assert parts[0][0] in parts[0];
    assert JoinPath(parts)[0] == parts[0][0];
  }

  lemma ClimbThenDescend(dir: Path, k: nat, names: Path)
    requires k <= |dir| && DOT_DOT !in dir && forall i | 0 <= i < |names| :: IsName(names[i])
    ensures Normalize(dir, Ups(k) + names) == dir[..|dir| - k] + names
  {
    hide IsName, Normalize;
    NormalizeJoins(dir, Ups(k), names);
    UpsClimb(dir, k);
    NamesDescend(dir[..|dir| - k], names);
  }

  /**
   A link that stands in `dir` and climbs `k` directories before it names `names` leads to `names` under
   what is left of `dir`.
  */
  lemma LinkLeads(dir: Path, n: seq<Byte>, k: nat, names: Path)
    requires k <= |dir| && DOT_DOT !in dir && names != []
    requires forall i | 0 <= i < |names| :: IsName(names[i]) && 47 !in names[i]
    ensures Hop(dir + [n], JoinPath(Ups(k) + names)) == dir[..|dir| - k] + names
  {
    hide *;
    UpsAndNames(k, names);
    HopOfParts(dir + [n], Ups(k) + names);
    ParentOf(dir, n);
    ClimbThenDescend(dir, k, names);
  }

  lemma UpsAndNames(k: nat, names: Path)
    requires names != [] && forall i | 0 <= i < |names| :: IsName(names[i]) && 47 !in names[i]
    ensures
      var parts := Ups(k) + names;
      parts != [] && parts[0] != [] && forall i | 0 <= i < |parts| :: 47 !in parts[i]
  {
    var parts := Ups(k) + names;
    forall i | 0 <= i < |parts|
      ensures parts[i] != [] && 47 !in parts[i]
    {
      assert parts[i] == if i < k then DOT_DOT else names[i - k];
    }
  }

  lemma ParentOf(dir: Path, n: seq<Byte>)
    ensures Parent(dir + [n]) == dir
  {
  }

  /** A safe member name is its own normal form: nothing in it stays or climbs. */
  lemma SafeNamesDescend(name: seq<Byte>)
    requires SafeName(name)
    ensures Normalize([], Split(name, 47)) == Split(name, 47)
  {
    var parts := Split(name, 47);
    forall i | 0 <= i < |parts|
      ensures IsName(parts[i])
    {
      assert SafePart(parts[i]);
    }
    hide SafeName, SafePart, IsName, Normalize, Split;
    NamesDescend([], parts);
    assert [] + parts == parts;
  }

  // ------------------------------------------------------------ following a path in the tree

  /** From `at`, part by part; every link on the way is followed, up to `fuel` of them. */
  function Reach(tree: Tree, at: Path, parts: seq<seq<Byte>>, fuel: nat): Option<Path>
    decreases fuel, |parts|
  {
    if parts == [] then Some(at)
    else if at !in tree || tree[at] != DirNode then None
    else if !IsName(parts[0]) then
      if parts[0] == DOT_DOT && at == [] then None
      else Reach(tree, if parts[0] == DOT_DOT then Parent(at) else at, parts[1..], fuel)
    else
      var next := at + [parts[0]];
      if next !in tree then None
      else if !tree[next].LinkNode? then Reach(tree, next, parts[1..], fuel)
      else if fuel == 0 || (tree[next].link != [] && tree[next].link[0] == 47) then None
      else Reach(tree, at, Split(tree[next].link, 47) + parts[1..], fuel - 1)
  }

  /** The same without following any link, so that a link can only be the end. */
  function Follow(tree: Tree, at: Path, parts: seq<seq<Byte>>): Option<Path>
    decreases |parts|
  {
    if parts == [] then Some(at)
    else if at !in tree || tree[at] != DirNode then None
    else if parts[0] == DOT_DOT && at == [] then None
    else if IsName(parts[0]) && at + [parts[0]] !in tree then None
    else Follow(tree, Next(at, parts[0]), parts[1..])
  }

  /** What the tree of an accepted archive and its aliases satisfy. */
  ghost predicate Rooted(tree: Tree) {
    && [] in tree && tree[[]] == DirNode
    && forall p | p in tree && p != [] ::
      IsName(p[|p| - 1]) && Parent(p) in tree && tree[Parent(p)] == DirNode
  }

  ghost predicate AliasFits(tree: Tree, hops: map<Path, Path>, canon: map<Path, Path>, p: Path) {
    && p in tree && p != [] && tree[p].LinkNode? && (tree[p].link == [] || tree[p].link[0] != 47)
    && p in hops && hops[p] == Normalize(Parent(p), Split(tree[p].link, 47))
    && hops[p] in tree && tree[hops[p]] != DirNode
    && p in canon && canon[p] in tree && tree[canon[p]].FileNode?
    && if hops[p] in hops then hops[p] in canon && canon[p] == canon[hops[p]] else canon[p] == hops[p]
  }

  ghost predicate World(tree: Tree, hops: map<Path, Path>, canon: map<Path, Path>) {
    && Rooted(tree)
    && (forall p | p in tree :: tree[p].LinkNode? <==> p in hops)
    && (forall p | p in hops :: AliasFits(tree, hops, canon, p))
  }

  /** Each turn of a link text that stands in `at` is made in a directory. */
  predicate TurnsInDirectories(tree: Tree, at: Path, parts: seq<seq<Byte>>) {
    forall k | 0 <= k < |parts| && !IsName(parts[k]) ::
      var place := Normalize(at, parts[..k]);
      place in tree && tree[place] == DirNode
  }

  lemma NextInTree(tree: Tree, at: Path, part: seq<Byte>)
    requires Rooted(tree) && at in tree && tree[at] == DirNode
    requires !(part == DOT_DOT && at == []) && (IsName(part) ==> at + [part] in tree)
    ensures Next(at, part) in tree && (!IsName(part) ==> tree[Next(at, part)] == DirNode)
    ensures part == DOT_DOT ==> Next(at, part) == Parent(at)
    ensures IsName(part) ==> Next(at, part) == at + [part]
  {
  }

  lemma {:induction false} FollowIsNormalize(tree: Tree, at: Path, parts: seq<seq<Byte>>)
    requires Rooted(tree) && at in tree && Follow(tree, at, parts).Some?
    ensures Follow(tree, at, parts) == Some(Normalize(at, parts)) && Normalize(at, parts) in tree
    ensures TurnsInDirectories(tree, at, parts)
    decreases |parts|
  {
    if parts != [] {
      NextInTree(tree, at, parts[0]);
      var next, rest := Next(at, parts[0]), parts[1..];
      FollowIsNormalize(tree, next, rest);
      forall k | 0 <= k < |parts| && !IsName(parts[k])
        ensures Normalize(at, parts[..k]) in tree && tree[Normalize(at, parts[..k])] == DirNode
      {
        if k > 0 {
          assert parts[..k][1..] == rest[..k - 1] && !IsName(rest[k - 1]);
        }
      }
    }
  }

  /** The places before and after the part at `k`. */
  lemma PlaceStep(at: Path, parts: seq<seq<Byte>>, k: nat)
    requires k < |parts|
    ensures Normalize(at, parts[..k + 1]) == Next(Normalize(at, parts[..k]), parts[k])
  {
    hide Normalize, Next;
    assert parts[..k + 1] == parts[..k] + [parts[k]];
    NormalizeJoins(at, parts[..k], [parts[k]]);
    OneStep(Normalize(at, parts[..k]), parts[k]);
  }

  /** All places a link text passes. */
  lemma {:induction false} PlacesAreInTree(tree: Tree, at: Path, parts: seq<seq<Byte>>, k: nat)
    requires Rooted(tree) && k <= |parts| && TurnsInDirectories(tree, at, parts) && Normalize(at, parts) in tree
    ensures Normalize(at, parts[..k]) in tree
    ensures k < |parts| ==> tree[Normalize(at, parts[..k])] == DirNode
    ensures k < |parts| && parts[k] == DOT_DOT ==> Normalize(at, parts[..k]) != []
    decreases |parts| - k
  {
    hide Normalize;
    if k == |parts| {
      assert parts[..k] == parts;
    } else {
      PlacesAreInTree(tree, at, parts, k + 1);
      PlaceStep(at, parts, k);
      var place := Normalize(at, parts[..k]);
      if IsName(parts[k]) {
        assert Parent(place + [parts[k]]) == place;
      }
    }
  }

  lemma {:induction false} TurnsFollow(tree: Tree, at: Path, parts: seq<seq<Byte>>, k: nat)
    requires Rooted(tree) && k <= |parts| && TurnsInDirectories(tree, at, parts) && Normalize(at, parts) in tree
    ensures Follow(tree, Normalize(at, parts[..k]), parts[k..]) == Some(Normalize(at, parts))
    decreases |parts| - k
  {
    PlacesAreInTree(tree, at, parts, k);
    if k == |parts| {
      assert parts[..k] == parts;
    } else {
      PlacesAreInTree(tree, at, parts, k + 1);
      TurnsFollow(tree, at, parts, k + 1);
      PlaceStep(at, parts, k);
      assert parts[k..][1..] == parts[k + 1..];
    }
  }

  /** A link text is followed without passing through a link exactly when it turns only in directories. */
  lemma FollowsExactly(tree: Tree, at: Path, parts: seq<seq<Byte>>)
    requires Rooted(tree) && at in tree && Normalize(at, parts) in tree
    ensures Follow(tree, at, parts).Some? <==> TurnsInDirectories(tree, at, parts)
    ensures Follow(tree, at, parts).Some? ==> Follow(tree, at, parts) == Some(Normalize(at, parts))
  {
    hide Rooted, TurnsInDirectories, Normalize, Follow;
    if Follow(tree, at, parts).Some? {
      FollowIsNormalize(tree, at, parts);
    }
    if TurnsInDirectories(tree, at, parts) {
      TurnsFollow(tree, at, parts, 0);
      assert parts[0..] == parts && parts[..0] == [];
      NothingNormalizes(at);
    }
  }

  lemma NothingNormalizes(at: Path)
    ensures Normalize(at, []) == at
  {
  }

  lemma {:induction false} FollowJoins(tree: Tree, at: Path, a: seq<seq<Byte>>, b: seq<seq<Byte>>)
    ensures Follow(tree, at, a + b) ==
      match Follow(tree, at, a) { case Some(mid) => Follow(tree, mid, b) case None => None }
    decreases |a|
  {
    if a == [] {
      assert a + b == b;
    } else {
      assert (a + b)[1..] == a[1..] + b;
      FollowJoins(tree, Next(at, a[0]), a[1..], b);
    }
  }

  // ------------------------------------------------------------ links on the way

  /** What a path stands for: an alias for its canonical file, everything else for itself. */
  function Target(hops: map<Path, Path>, canon: map<Path, Path>, p: Path): Path {
    if p in hops && p in canon then canon[p] else p
  }

  lemma AliasIs(tree: Tree, hops: map<Path, Path>, canon: map<Path, Path>, p: Path)
    requires World(tree, hops, canon) && p in tree && tree[p].LinkNode?
    ensures AliasFits(tree, hops, canon, p)
  {
  }

  lemma NotLink(tree: Tree, hops: map<Path, Path>, canon: map<Path, Path>, p: Path)
    requires World(tree, hops, canon) && p in tree && !tree[p].LinkNode?
    ensures Target(hops, canon, p) == p
  {
  }

  /** The link of an alias, followed without passing through a link, leads to the next alias or the file. */
  lemma LinkIsFollowed(
      tree: Tree, hops: map<Path, Path>, canon: map<Path, Path>, p: Path, rest: seq<seq<Byte>>)
    requires World(tree, hops, canon) && p in tree && tree[p].LinkNode?
    requires Follow(tree, Parent(p), Split(tree[p].link, 47) + rest).Some?
    ensures rest == [] && Follow(tree, Parent(p), Split(tree[p].link, 47)) == Some(hops[p])
    ensures Target(hops, canon, hops[p]) == Target(hops, canon, p) == canon[p]
  {
    AliasIs(tree, hops, canon, p);
    assert Rooted(tree);
    hide World;
    var parts := Split(tree[p].link, 47);
    FollowJoins(tree, Parent(p), parts, rest);
    FollowIsNormalize(tree, Parent(p), parts);
  }

  /** One part that names no link is a step of both. */
  lemma PlainStep(tree: Tree, at: Path, parts: seq<seq<Byte>>, fuel: nat)
    requires Rooted(tree) && at in tree && parts != [] && Reach(tree, at, parts, fuel).Some?
    requires !(IsName(parts[0]) && at + [parts[0]] in tree && tree[at + [parts[0]]].LinkNode?)
    ensures Next(at, parts[0]) in tree && !tree[Next(at, parts[0])].LinkNode?
    ensures Reach(tree, at, parts, fuel) == Reach(tree, Next(at, parts[0]), parts[1..], fuel)
    ensures Follow(tree, at, parts) == Follow(tree, Next(at, parts[0]), parts[1..])
  {
    NextInTree(tree, at, parts[0]);
    hide Next, Rooted, IsName;
  }

  /** One part that names a link goes on with the link's text. */
  lemma LinkStep(tree: Tree, at: Path, parts: seq<seq<Byte>>, fuel: nat)
    requires at in tree && parts != [] && Reach(tree, at, parts, fuel).Some?
    requires IsName(parts[0]) && at + [parts[0]] in tree && tree[at + [parts[0]]].LinkNode?
    ensures fuel > 0 && tree[at] == DirNode
    ensures Reach(tree, at, parts, fuel) ==
      Reach(tree, at, Split(tree[at + [parts[0]]].link, 47) + parts[1..], fuel - 1)
    ensures parts[1..] == [] ==> Follow(tree, at, parts) == Some(at + [parts[0]])
  {
    assert Next(at, parts[0]) == at + [parts[0]];
  }

  lemma NothingReached(tree: Tree, at: Path, fuel: nat)
    ensures Reach(tree, at, [], fuel) == Some(at) == Follow(tree, at, [])
  {
  }

  /** Whatever is reached by following links is where the text leads when no link is passed through. */
  lemma {:induction false} ReachedIsTarget(
      tree: Tree, hops: map<Path, Path>, canon: map<Path, Path>, at: Path, parts: seq<seq<Byte>>, fuel: nat)
    requires World(tree, hops, canon) && at in tree && !tree[at].LinkNode? && Reach(tree, at, parts, fuel).Some?
    ensures Follow(tree, at, parts).Some?
    ensures Reach(tree, at, parts, fuel) == Some(Target(hops, canon, Follow(tree, at, parts).value))
    decreases fuel, |parts|
  {
    hide *;
    if parts == [] {
      NotLink(tree, hops, canon, at);
      NothingReached(tree, at, fuel);
    } else if IsName(parts[0]) && at + [parts[0]] in tree && tree[at + [parts[0]]].LinkNode? {
      var p := at + [parts[0]];
      ParentOf(at, parts[0]);
      LinkStep(tree, at, parts, fuel);
      ReachedIsTarget(tree, hops, canon, at, Split(tree[p].link, 47) + parts[1..], fuel - 1);
      LinkIsFollowed(tree, hops, canon, p, parts[1..]);
      assert Split(tree[p].link, 47) + parts[1..] == Split(tree[p].link, 47);
    } else {
      WorldIsRooted(tree, hops, canon);
      PlainStep(tree, at, parts, fuel);
      ReachedIsTarget(tree, hops, canon, Next(at, parts[0]), parts[1..], fuel);
    }
  }

  lemma WorldIsRooted(tree: Tree, hops: map<Path, Path>, canon: map<Path, Path>)
    requires World(tree, hops, canon)
    ensures Rooted(tree)
  {
  }

  /** A text that leads to no directory is followed up to its last part, which names where it leads. */
  lemma {:induction false} ReachLast(
      tree: Tree, at: Path, parts: seq<seq<Byte>>, fuel: nat, end: Path)
    requires Rooted(tree) && at in tree && parts != [] && Follow(tree, at, parts) == Some(end)
    requires end in tree && tree[end] != DirNode
    ensures end != [] && Reach(tree, at, parts, fuel) == Reach(tree, Parent(end), [LastPart(end)], fuel)
    decreases |parts|
  {
    NextInTree(tree, at, parts[0]);
    var next, rest := Next(at, parts[0]), parts[1..];
    if rest == [] {
      assert next == end && parts == [parts[0]];
      assert Parent(at + [parts[0]]) == at;
    } else {
      ReachLast(tree, next, rest, fuel, end);
    }
  }

  /** Every link of the chain that starts at `p` turns only in directories. */
  ghost predicate ChainTurns(tree: Tree, hops: map<Path, Path>, p: Path) {
    forall k: nat ::
      var q := After(hops, p, k);
      q in hops && q in tree && tree[q].LinkNode? && q != [] ==>
        TurnsInDirectories(tree, Parent(q), Split(tree[q].link, 47))
  }

  lemma ChainTurnsOn(tree: Tree, hops: map<Path, Path>, p: Path)
    requires p in hops && p in tree && tree[p].LinkNode? && p != []
    ensures ChainTurns(tree, hops, p) <==>
      TurnsInDirectories(tree, Parent(p), Split(tree[p].link, 47)) && ChainTurns(tree, hops, hops[p])
  {
    hide TurnsInDirectories;
    if ChainTurns(tree, hops, p) {
      assert After(hops, p, 0) == p;
      forall k: nat
        ensures After(hops, hops[p], k) == After(hops, p, k + 1)
      {
      }
    }
    if TurnsInDirectories(tree, Parent(p), Split(tree[p].link, 47)) && ChainTurns(tree, hops, hops[p]) {
      forall k: nat
        ensures k > 0 ==> After(hops, p, k) == After(hops, hops[p], k - 1)
        ensures k == 0 ==> After(hops, p, k) == p
      {
      }
    }
  }

  function LastPart(p: Path): seq<Byte>
    requires p != []
  {
    p[|p| - 1]
  }

  lemma FitsAt(tree: Tree, hops: map<Path, Path>, canon: map<Path, Path>, p: Path)
    requires World(tree, hops, canon) && p in hops
    ensures Rooted(tree) && AliasFits(tree, hops, canon, p)
    ensures hops[p] in tree ==> (hops[p] in hops <==> tree[hops[p]].LinkNode?)
  {
    hide Rooted, AliasFits;
  }

  lemma RootedAt(tree: Tree, p: Path)
    requires Rooted(tree) && p in tree && p != []
    ensures Parent(p) in tree && tree[Parent(p)] == DirNode && IsName(LastPart(p)) && Parent(p) + [LastPart(p)] == p
  {
    hide IsName;
  }

  lemma AliasFacts(tree: Tree, hops: map<Path, Path>, canon: map<Path, Path>, p: Path)
    requires World(tree, hops, canon) && p in hops
    ensures Rooted(tree) && p in tree && p != [] && tree[p].LinkNode?
    ensures tree[p].link == [] || tree[p].link[0] != 47
    ensures Parent(p) in tree && tree[Parent(p)] == DirNode && IsName(LastPart(p)) && Parent(p) + [LastPart(p)] == p
    ensures hops[p] == Normalize(Parent(p), Split(tree[p].link, 47)) && hops[p] in tree && tree[hops[p]] != DirNode
    ensures hops[p] in hops <==> tree[hops[p]].LinkNode?
    ensures hops[p] != [] && p in canon
    ensures if hops[p] in hops then hops[p] in canon && canon[p] == canon[hops[p]] else canon[p] == hops[p]
  {
    hide World, Normalize, Split, Parent, LastPart, IsName, Rooted;
    FitsAt(tree, hops, canon, p);
    RootedAt(tree, p);
    RootIsDirectory(tree);
  }

  lemma RootIsDirectory(tree: Tree)
    requires Rooted(tree)
    ensures [] in tree && tree[[]] == DirNode
  {
  }

  lemma ReachLink(tree: Tree, hops: map<Path, Path>, canon: map<Path, Path>, p: Path, fuel: nat)
    requires World(tree, hops, canon) && p in hops
    ensures p in tree && p != [] && tree[p].LinkNode?
    ensures Reach(tree, Parent(p), [LastPart(p)], fuel) ==
      if fuel == 0 then None else Reach(tree, Parent(p), Split(tree[p].link, 47), fuel - 1)
  {
    AliasFacts(tree, hops, canon, p);
    hide World, Rooted, Normalize, LastPart, Parent, IsName;
    var parts := Split(tree[p].link, 47);
    assert parts + [LastPart(p)][1..] == parts;
  }

  /** A link that turns only in directories leads on to the next entry of its chain. */
  lemma ReachHop(tree: Tree, hops: map<Path, Path>, canon: map<Path, Path>, p: Path, fuel: nat)
    requires World(tree, hops, canon) && p in hops && p != [] && p in tree && tree[p].LinkNode?
    requires TurnsInDirectories(tree, Parent(p), Split(tree[p].link, 47))
    ensures hops[p] != [] && Reach(tree, Parent(p), [LastPart(p)], fuel) ==
      if fuel == 0 then None else Reach(tree, Parent(hops[p]), [LastPart(hops[p])], fuel - 1)
  {
    hide World, Rooted, Normalize, LastPart, Parent, IsName, Reach, Follow, TurnsInDirectories;
    AliasFacts(tree, hops, canon, p);
    ReachLink(tree, hops, canon, p, fuel);
    FollowsExactly(tree, Parent(p), Split(tree[p].link, 47));
    if fuel > 0 {
      ReachLast(tree, Parent(p), Split(tree[p].link, 47), fuel - 1, hops[p]);
    }
  }

  lemma ReachFile(tree: Tree, p: Path, fuel: nat)
    requires Rooted(tree) && p in tree && tree[p].FileNode? && p != []
    ensures Reach(tree, Parent(p), [LastPart(p)], fuel) == Some(p)
  {
    assert Parent(p) + [LastPart(p)] == p;
    var rest: seq<seq<Byte>> := [LastPart(p)][1..];
    assert rest == [];
  }

  /** An alias whose chain turns only in directories reaches its canonical file in as many links. */
  lemma {:induction false} TurningChainReaches(
      tree: Tree, hops: map<Path, Path>, canon: map<Path, Path>, p: Path, k: nat)
    requires World(tree, hops, canon) && p in hops && ChainTurns(tree, hops, p)
    requires After(hops, p, k) !in hops
    ensures p != [] && p in canon && Reach(tree, Parent(p), [LastPart(p)], k) == Some(canon[p])
    decreases k
  {
    hide *;
    AfterStep(hops, p, k);
    AliasFacts(tree, hops, canon, p);
    ChainTurnsOn(tree, hops, p);
    ReachHop(tree, hops, canon, p, k);
    if hops[p] in hops {
      TurningChainReaches(tree, hops, canon, hops[p], k - 1);
    } else {
      FileOrHop(tree, hops[p]);
      ReachFile(tree, hops[p], k - 1);
    }
  }

  lemma AfterStep(hops: map<Path, Path>, p: Path, k: nat)
    requires p in hops && After(hops, p, k) !in hops
    ensures k > 0 && After(hops, hops[p], k - 1) !in hops
  {
  }

  lemma FileOrHop(tree: Tree, p: Path)
    requires p in tree && tree[p] != DirNode && !tree[p].LinkNode?
    ensures tree[p].FileNode?
  {
  }

  lemma NoChain(tree: Tree, hops: map<Path, Path>, p: Path)
    requires p !in hops
    ensures ChainTurns(tree, hops, p)
  {
    assert forall k: nat :: After(hops, p, k) == p;
  }

  lemma {:induction false} ReachingChainTurns(
      tree: Tree, hops: map<Path, Path>, canon: map<Path, Path>, p: Path, fuel: nat)
    requires World(tree, hops, canon) && p in hops && p != [] && Reach(tree, Parent(p), [LastPart(p)], fuel).Some?
    ensures ChainTurns(tree, hops, p)
    decreases fuel
  {
    hide *;
    AliasFacts(tree, hops, canon, p);
    ReachLink(tree, hops, canon, p, fuel);
    ReachedIsTarget(tree, hops, canon, Parent(p), Split(tree[p].link, 47), fuel - 1);
    FollowsExactly(tree, Parent(p), Split(tree[p].link, 47));
    ReachHop(tree, hops, canon, p, fuel);
    if hops[p] in hops {
      ReachingChainTurns(tree, hops, canon, hops[p], fuel - 1);
    } else {
      NoChain(tree, hops, hops[p]);
    }
    ChainTurnsOn(tree, hops, p);
  }

  // ------------------------------------------------------------ accepted archives

  lemma {:induction false} HopsAt(members: seq<Entry>, i: nat)
    requires Distinct(MemberPaths(members)) && i < |members| && members[i].kind == Alias && members[i].path != []
    ensures members[i].path in Hops(members)
    ensures Hops(members)[members[i].path] == Hop(members[i].path, members[i].link)
  {
    hide Hop;
    var n := |members| - 1;
    assert MemberPaths(members)[i] == members[i].path && MemberPaths(members)[n] == members[n].path;
    if i < n {
      assert MemberPaths(members[..n]) == MemberPaths(members)[..n];
      HopsAt(members[..n], i);
    }
  }

  function TreeOf(members: seq<Entry>, manifestSize: nat): Tree {
    var r := CreateAll(EMPTY_TREE, CreationOrder(members, manifestSize));
    if r.Some? then r.value else EMPTY_TREE
  }

  function Canonicals(m: Manifest, members: seq<Entry>): map<Path, Path> {
    var rows := RowMap(AllRows(m));
    map p | p in Hops(members) && p in rows && rows[p].AliasRow? :: rows[p].canonical
  }

  /** The entries of the tree are the root and the members. */
  lemma TreeIsMembers(m: Manifest, members: seq<Entry>, manifestSize: nat)
    requires Accepted(m, members, manifestSize)
    ensures
      var tree := TreeOf(members, manifestSize);
      && [] in tree && tree[[]] == DirNode
      && (forall e | e in members :: e.path in tree && tree[e.path] == NodeOf(e))
      && (forall p | p in tree && p != [] :: exists e :: e in members && e.path == p)
  {
    AcceptedExtracts(m, members, manifestSize);
    hide Accepted, CreateAll, CreationOrder;
    var tree := TreeOf(members, manifestSize);
    forall e | e in members
      ensures e.path in tree && tree[e.path] == NodeOf(e)
    {
      assert e in Elements(members);
    }
    forall p | p in tree && p != []
      ensures exists e :: e in members && e.path == p
    {
      assert p in PathsOf(Elements(members));
      var e :| e in Elements(members) && e.path == p;
      assert e in members;
    }
  }

  lemma SafeEnds(p: Path)
    requires SafePath(p) || p == OPT_PATH || p == MANIFEST_PATH
    ensures p != [] && IsName(p[|p| - 1])
  {
    if p == MANIFEST_PATH {
      assert |MANIFEST| == 19;
    } else {
      assert p[|p| - 1] in p;
    }
  }

  lemma MemberIsNamed(m: Manifest, members: seq<Entry>, manifestSize: nat, e: Entry)
    requires Accepted(m, members, manifestSize) && e in members
    ensures e.path != [] && IsName(e.path[|e.path| - 1])
  {
    MemberHas(m, members, manifestSize, e);
    ExpectedNamesHas(m, e.path);
    assert RowsOk(m);
    hide Accepted, RowsOk, ExpectedNames, AllRows, RowMap, MemberOk, SafePath, IsName;
    if e.path != OPT_PATH && e.path != MANIFEST_PATH {
      RowsContain(m, e.path);
      RowsHave(m, e.path);
    }
    SafeEnds(e.path);
  }

  lemma TreeIsRooted(m: Manifest, members: seq<Entry>, manifestSize: nat)
    requires Accepted(m, members, manifestSize)
    ensures Rooted(TreeOf(members, manifestSize))
  {
    TreeIsMembers(m, members, manifestSize);
    var tree := TreeOf(members, manifestSize);
    hide Accepted, TreeOf, IsName;
    forall p | p in tree && p != []
      ensures IsName(p[|p| - 1]) && Parent(p) in tree && tree[Parent(p)] == DirNode
    {
      var e :| e in members && e.path == p;
      MemberIsNamed(m, members, manifestSize, e);
      ParentIsMember(m, members, manifestSize, e);
    }
  }

  lemma AliasMember(m: Manifest, members: seq<Entry>, manifestSize: nat, e: Entry)
    requires Accepted(m, members, manifestSize) && e in members
    ensures e.path in Hops(members) <==> e.kind == Alias
    ensures e.kind == Alias ==>
      && e.path != [] && Hops(members)[e.path] == Normalize(Parent(e.path), Split(e.link, 47))
      && (e.link == [] || e.link[0] != 47)
  {
    var i :| 0 <= i < |members| && members[i] == e;
    assert e.kind == Alias ==> AliasOk(RowMap(AllRows(m)), Hops(members), members[i]);
    MemberHas(m, members, manifestSize, e);
    PathsAreDistinct(m, members, manifestSize);
    hide Accepted, MemberOk, ExpectedNames, AllRows, RowMap, Distinct, Hops, Walk;
    forall f | f in members && f.path == e.path
      ensures f == e
    {
      MembersAreDistinct(m, members, manifestSize, e, f);
    }
    if e.kind == Alias {
      HopsAt(members, i);
    }
  }

  lemma RowOfAlias(m: Manifest, members: seq<Entry>, manifestSize: nat, e: Entry)
    requires Accepted(m, members, manifestSize) && e in members && e.kind == Alias
    ensures e.path in Canonicals(m, members)
    ensures
      var hops, t := Hops(members), Canonicals(m, members)[e.path];
      && e.path in hops && PRIVATE_PATH < hops[e.path] && t !in hops && (hops[e.path] !in hops ==> t == hops[e.path])
      && t in RowMap(AllRows(m)) && RowMap(AllRows(m))[t].RegularRow?
  {
    var i :| 0 <= i < |members| && members[i] == e;
    assert AliasOk(RowMap(AllRows(m)), Hops(members), members[i]);
    hide Accepted, Hops, Walk;
    ChainsEndAtCanonical(m, members, manifestSize, i);
    hide AllRows, RowMap;
    var hops, t := Hops(members), Canonicals(m, members)[e.path];
    var k: nat :| After(hops, e.path, k) == t;
    assert k > 0 && After(hops, e.path, k) == After(hops, hops[e.path], k - 1);
    if hops[e.path] !in hops {
      assert After(hops, hops[e.path], k - 1) == hops[e.path];
    }
  }

  /** The canonical file of an alias lies below the private directory. */
  lemma {:induction false} EndIsPrivate(m: Manifest, members: seq<Entry>, manifestSize: nat, p: Path, k: nat)
    requires Accepted(m, members, manifestSize) && p in Hops(members) && k > 0
    ensures After(Hops(members), p, k) in Hops(members) || PRIVATE_PATH < After(Hops(members), p, k)
    decreases k
  {
    hide Accepted, Hops;
    var hops := Hops(members);
    var i :| 0 <= i < |members| && members[i].kind == Alias && members[i].path == p;
    RowOfAlias(m, members, manifestSize, members[i]);
    if hops[p] in hops && k > 1 {
      EndIsPrivate(m, members, manifestSize, hops[p], k - 1);
    }
  }

  lemma CanonicalIsFile(m: Manifest, members: seq<Entry>, manifestSize: nat, e: Entry)
    requires Accepted(m, members, manifestSize) && e in members && e.kind == Alias
    ensures e.path in Canonicals(m, members)
    ensures
      var t, tree := Canonicals(m, members)[e.path], TreeOf(members, manifestSize);
      t in tree && tree[t].FileNode?
  {
    var i :| 0 <= i < |members| && members[i] == e;
    hide Accepted, CreateAll, CreationOrder, RowMap, AllRows, Hops;
    ChainsEndAtCanonical(m, members, manifestSize, i);
    RowOfAlias(m, members, manifestSize, e);
    var t := Canonicals(m, members)[e.path];
    var k: nat :| After(Hops(members), e.path, k) == t;
    if k > 0 {
      EndIsPrivate(m, members, manifestSize, e.path, k);
    }
    assert PRIVATE_PATH < t && |PRIVATE_PATH| == 2;
    ExtractedTreeIsManifest(m, members, manifestSize, t);
  }

  lemma AliasesFit(m: Manifest, members: seq<Entry>, manifestSize: nat, e: Entry)
    requires Accepted(m, members, manifestSize) && e in members && e.kind == Alias
    ensures AliasFits(TreeOf(members, manifestSize), Hops(members), Canonicals(m, members), e.path)
  {
    hide Accepted, TreeOf, Hops, Canonicals, Normalize, RowMap, AllRows;
    TreeIsMembers(m, members, manifestSize);
    AliasMember(m, members, manifestSize, e);
    RowOfAlias(m, members, manifestSize, e);
    CanonicalIsFile(m, members, manifestSize, e);
    var hops := Hops(members);
    if hops[e.path] in hops {
      var i :| 0 <= i < |members| && members[i] == e;
      var j :| 0 <= j < |members| && members[j].kind == Alias && members[j].path == hops[e.path];
      NextShares(m, members, manifestSize, i, j);
    }
  }

  lemma NextShares(m: Manifest, members: seq<Entry>, manifestSize: nat, i: nat, j: nat)
    requires Accepted(m, members, manifestSize) && i < |members| && members[i].kind == Alias
    requires members[i].path in Hops(members)
    requires j < |members| && members[j].kind == Alias && members[j].path == Hops(members)[members[i].path]
    ensures
      var canon := Canonicals(m, members);
      members[i].path in canon && members[j].path in canon && canon[members[i].path] == canon[members[j].path]
  {
    hide Accepted, Hops, AllRows, RowMap;
    assert After(Hops(members), members[i].path, 1) == members[j].path;
    ChainsShareCanonical(m, members, manifestSize, i, j, 1);
    RowOfAlias(m, members, manifestSize, members[i]);
    RowOfAlias(m, members, manifestSize, members[j]);
  }

  lemma LinksAreAliases(m: Manifest, members: seq<Entry>, manifestSize: nat, p: Path)
    requires Accepted(m, members, manifestSize) && p in TreeOf(members, manifestSize)
    ensures TreeOf(members, manifestSize)[p].LinkNode? <==> p in Hops(members)
  {
    TreeIsMembers(m, members, manifestSize);
    NoHopFromRoot(m, members, manifestSize);
    hide Accepted, TreeOf, Hops;
    if p != [] {
      var e :| e in members && e.path == p;
      AliasMember(m, members, manifestSize, e);
      MemberHas(m, members, manifestSize, e);
    }
  }

  lemma AcceptedIsWorld(m: Manifest, members: seq<Entry>, manifestSize: nat)
    requires Accepted(m, members, manifestSize)
    ensures World(TreeOf(members, manifestSize), Hops(members), Canonicals(m, members))
  {
    hide Accepted, TreeOf, Hops, Canonicals, Rooted, AliasFits;
    TreeIsRooted(m, members, manifestSize);
    var tree, hops := TreeOf(members, manifestSize), Hops(members);
    forall p | p in hops
      ensures AliasFits(tree, hops, Canonicals(m, members), p)
    {
      var i :| 0 <= i < |members| && members[i].kind == Alias && members[i].path == p;
      AliasesFit(m, members, manifestSize, members[i]);
    }
    forall p | p in tree
      ensures tree[p].LinkNode? <==> p in hops
    {
      LinksAreAliases(m, members, manifestSize, p);
    }
  }

  lemma NoHopFromRoot(m: Manifest, members: seq<Entry>, manifestSize: nat)
    requires Accepted(m, members, manifestSize)
    ensures [] !in Hops(members)
  {
    hide Accepted, Hops;
    if [] in Hops(members) {
      var i :| 0 <= i < |members| && members[i].kind == Alias && members[i].path == [];
      AliasMember(m, members, manifestSize, members[i]);
    }
  }

  lemma FollowName(tree: Tree, at: Path, part: seq<Byte>, rest: seq<seq<Byte>>)
    requires at in tree && tree[at] == DirNode && IsName(part) && at + [part] in tree
    ensures Follow(tree, at, [part] + rest) == Follow(tree, at + [part], rest)
  {
    assert ([part] + rest)[1..] == rest;
    assert Next(at, part) == at + [part];
  }

  lemma {:induction false} PathIsFollowed(tree: Tree, p: Path, k: nat)
    requires Rooted(tree) && p in tree && k <= |p|
    ensures p[..k] in tree && Follow(tree, p[..k], p[k..]) == Some(p)
    ensures k < |p| ==> tree[p[..k]] == DirNode && IsName(p[k])
    decreases |p| - k
  {
    hide IsName, Next, Parent;
    if k == |p| {
      assert p[..k] == p && p[k..] == [];
    } else {
      hide Follow;
      PathIsFollowed(tree, p, k + 1);
      ParentOf(p[..k], p[k]);
      assert p[..k + 1] == p[..k] + [p[k]] && p[k..] == [p[k]] + p[k + 1..];
      FollowName(tree, p[..k], p[k], p[k + 1..]);
    }
  }

  /**
   In the tree of an accepted archive an operating system reaches nothing but the canonical file through
   an alias, and reaches it exactly when every link of the chain turns only in directories.
  */
  lemma LinksReachCanonical(m: Manifest, members: seq<Entry>, manifestSize: nat, i: nat)
    requires Accepted(m, members, manifestSize) && i < |members| && members[i].kind == Alias
    ensures members[i].path in RowMap(AllRows(m)) && RowMap(AllRows(m))[members[i].path].AliasRow?
    ensures
      var tree, p, t := TreeOf(members, manifestSize), members[i].path, RowMap(AllRows(m))[members[i].path].canonical;
      && (forall fuel: nat :: Reach(tree, [], p, fuel) in {None, Some(t)})
      && ((exists fuel: nat :: Reach(tree, [], p, fuel) == Some(t)) <==> ChainTurns(tree, Hops(members), p))
  {
    var tree, hops, canon, p := TreeOf(members, manifestSize), Hops(members), Canonicals(m, members), members[i].path;
    AcceptedIsWorld(m, members, manifestSize);
    ChainsEndAtCanonical(m, members, manifestSize, i);
    RowOfAlias(m, members, manifestSize, members[i]);
    assert canon[p] == RowMap(AllRows(m))[p].canonical;
    hide Accepted, TreeOf, Hops, Canonicals, RowMap, AllRows;
    AliasReaches(tree, hops, canon, p);
  }

  lemma AliasReaches(tree: Tree, hops: map<Path, Path>, canon: map<Path, Path>, p: Path)
    requires World(tree, hops, canon) && p in hops && p in canon && canon[p] !in hops
    requires exists k :: After(hops, p, k) == canon[p]
    ensures forall fuel: nat :: Reach(tree, [], p, fuel) in {None, Some(canon[p])}
    ensures (exists fuel: nat :: Reach(tree, [], p, fuel) == Some(canon[p])) <==> ChainTurns(tree, hops, p)
  {
    AliasFacts(tree, hops, canon, p);
    PathIsFollowed(tree, p, 0);
    assert p[0..] == p && p[..0] == [];
    hide World, After, ChainTurns, Normalize, Reach, Follow, Parent, LastPart, IsName;
    forall fuel: nat
      ensures Reach(tree, [], p, fuel) == Reach(tree, Parent(p), [LastPart(p)], fuel)
      ensures Reach(tree, [], p, fuel) in {None, Some(canon[p])}
      ensures Reach(tree, [], p, fuel).Some? ==> ChainTurns(tree, hops, p)
    {
      ReachLast(tree, [], p, fuel, p);
      if Reach(tree, [], p, fuel).Some? {
        ReachedIsTarget(tree, hops, canon, [], p, fuel);
        ReachingChainTurns(tree, hops, canon, p, fuel);
      }
    }
    if ChainTurns(tree, hops, p) {
      var k: nat :| After(hops, p, k) == canon[p];
      TurningChainReaches(tree, hops, canon, p, k);
      assert Reach(tree, [], p, k) == Some(canon[p]);
    }
  }

  lemma UpsPrefix(k: nat, names: Path, j: nat)
    requires j < k + |names| && (j >= k ==> IsName(names[j - k]))
    ensures !IsName((Ups(k) + names)[j]) ==> j < k && (Ups(k) + names)[..j] == Ups(j)
  {
  }

  /** A link that only climbs before it names anything always turns in directories. */
  lemma ClimbersTurn(tree: Tree, at: Path, k: nat, names: Path)
    requires Rooted(tree) && at in tree && tree[at] == DirNode && k <= |at|
    requires forall i | 0 <= i < |names| :: IsName(names[i])
    ensures TurnsInDirectories(tree, at, Ups(k) + names)
  {
    var parts := Ups(k) + names;
    hide Normalize, IsName, Rooted;
    NamesInTree(tree, at);
    forall j | 0 <= j < |parts| && !IsName(parts[j])
      ensures Normalize(at, parts[..j]) in tree && tree[Normalize(at, parts[..j])] == DirNode
    {
      UpsPrefix(k, names, j);
      UpsClimb(at, j);
      PathIsFollowed(tree, at, |at| - j);
      assert j == 0 ==> at[..|at| - j] == at;
    }
  }

  lemma {:induction false} NamesInTree(tree: Tree, at: Path)
    requires Rooted(tree) && at in tree
    ensures DOT_DOT !in at
    decreases |at|
  {
    if at != [] {
      NamesInTree(tree, Parent(at));
      assert at == Parent(at) + [at[|at| - 1]];
    }
  }
}
