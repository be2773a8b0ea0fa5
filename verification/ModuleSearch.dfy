/** The search over module imports. */
module ModuleSearch {
  /*
   The search over relative module imports that starts from the payload's index module: it succeeds
   exactly when everything reachable is declared, readable and stays under `dist`, and the two
   required modules are reached.
  */

  import opened Options
  import opened Bytes

  type Name = seq<Byte>

  /** A path under the payload directory, by components. */
  type Path = seq<Name>

  /** One component of an import specifier. */
  datatype Component = Current | Parent | Normal(name: Name)

  /**
   What the search can see: the names the manifest declares, and for each module file that can be
   read as text the specifiers of its relative imports.
   */
  datatype Payload = Payload(declared: set<Name>, imports: map<Path, seq<seq<Component>>>)

  const SLASH: Byte := 47
  const BACKSLASH: Byte := 92
  const DIST: Name := Ascii("dist")
  const INDEX: Path := [DIST, Ascii("index.js")]
  const INDEX_NAME: Name := Ascii("dist/index.js")
  const INPUT: Path := [DIST, Ascii("input.js")]
  const BOUND: Path := [DIST, Ascii("paired-v2"), Ascii("bound.js")]

  // ------------------------------------------------------------ the specifiers in a module's text

  function LastIndex(s: seq<Byte>, b: Byte): (i: Option<nat>)
    ensures i.Some? ==> i.value < |s|
  {
    if s == [] then None
    else if s[|s| - 1] == b then Some(|s| - 1)
    else LastIndex(s[..|s| - 1], b)
  }

  predicate EndsWith(s: seq<Byte>, end: seq<Byte>) {
    |end| <= |s| && s[|s| - |end|..] == end
  }

  predicate IsRelative(spec: seq<Byte>) {
    && (Ascii("./") <= spec || Ascii("../") <= spec)
    && (EndsWith(spec, Ascii(".js")) || EndsWith(spec, Ascii(".mjs")))
  }

  /** What stands between the last two quotes of this kind, if it is a relative specifier. */
  function Quoted(line: seq<Byte>, quote: Byte): seq<seq<Byte>> {
    var end := LastIndex(line, quote);
    var start := if end.None? then None else LastIndex(line[..end.value], quote);
    if start.None? || !IsRelative(line[start.value + 1..end.value]) then [] else [line[start.value + 1..end.value]]
  }

  function LineSpecifiers(line: seq<Byte>): seq<seq<Byte>> {
    var trimmed := Trim(line);
    if Ascii("import ") <= trimmed || Ascii("export ") <= trimmed then Quoted(trimmed, 34) + Quoted(trimmed, 39) else []
  }

  function LinesSpecifiers(lines: seq<seq<Byte>>): seq<seq<Byte>> {
    if lines == [] then [] else LinesSpecifiers(lines[..|lines| - 1]) + LineSpecifiers(lines[|lines| - 1])
  }

  /** The parts between slashes; empty ones, and a period that is not the first part, are no components. */
  function ComponentsOf(spec: seq<Byte>): seq<Component> {
    PartComponents(Split(spec, SLASH))
  }

  function PartComponents(parts: seq<Name>): seq<Component> {
    if parts == [] then []
    else
      PartComponents(parts[..|parts| - 1]) +
      var part := parts[|parts| - 1];
      if part == Ascii("..") then [Parent]
      else if part == Ascii(".") then (if |parts| == 1 then [Current] else [])
      else if part == [] then []
      else [Normal(part)]
  }

  method ExtractSpecifiers(text: seq<Byte>) returns (specs: seq<seq<Byte>>)
    ensures specs == LinesSpecifiers(Split(text, 10))
  {
    var lines := Split(text, 10);
    hide Split, Trim, Quoted;
    specs := [];
    for i := 0 to |lines|
      invariant specs == LinesSpecifiers(lines[..i])
    {
      assert lines[..i + 1][..i] == lines[..i];
      var line := Trim(lines[i]);
      if Ascii("import ") <= line || Ascii("export ") <= line {
        specs := specs + (Quoted(line, 34) + Quoted(line, 39));
      }
    }
    assert lines[..|lines|] == lines;
  }

  /** The specifiers of a module's text, by components. */
  function Specifiers(text: seq<Byte>): seq<seq<Component>> {
    var specs := LinesSpecifiers(Split(text, 10));
    seq(|specs|, i requires 0 <= i < |specs| => ComponentsOf(specs[i]))
  }

  // ------------------------------------------------------------ resolving a specifier

  predicate UnderDist(p: Path) {
    p != [] && p[0] == DIST
  }

  /** The path reached from directory `base`, unless a step leaves `dist`. */
  function Resolve(base: Path, steps: seq<Component>): Option<Path>
    decreases |steps|
  {
    if steps == [] then Some(base)
    else
      match steps[0]
      case Current => Resolve(base, steps[1..])
      case Normal(name) => Resolve(base + [name], steps[1..])
      case Parent =>
        if base == [] || !UnderDist(base[..|base| - 1]) then None
        else Resolve(base[..|base| - 1], steps[1..])
  }

  /** How many directories down the steps lead, net. */
  function Descent(steps: seq<Component>): int {
    if steps == [] then 0
    else Descent(steps[..|steps| - 1]) + Drop(steps[|steps| - 1])
  }

  function Drop(step: Component): int {
    match step
    case Current => 0
    case Parent => -1
    case Normal(_) => 1
  }

  /** No step leads above `dist`. */
  ghost predicate StaysBelow(base: Path, steps: seq<Component>) {
    forall k | 0 <= k <= |steps| :: |base| + Descent(steps[..k]) >= 1
  }

  lemma {:induction false} DescentSplits(first: Component, rest: seq<Component>)
    ensures Descent([first] + rest) == Descent([first]) + Descent(rest)
    decreases |rest|
  {
    var steps := [first] + rest;
    if rest != [] {
      assert steps[..|steps| - 1] == [first] + rest[..|rest| - 1];
      DescentSplits(first, rest[..|rest| - 1]);
    } else {
      assert steps == [first];
    }
  }

  lemma StaysBelowSplits(base: Path, next: Path, steps: seq<Component>)
    requires UnderDist(base) && steps != [] && |next| == |base| + Descent([steps[0]])
    ensures StaysBelow(base, steps) <==> |next| >= 1 && StaysBelow(next, steps[1..])
  {
    assert Descent([]) == 0;
    forall k | 0 <= k < |steps|
      ensures Descent(steps[..k + 1]) == Descent([steps[0]]) + Descent(steps[1..][..k])
    {
      assert steps[..k + 1] == [steps[0]] + steps[1..][..k];
      DescentSplits(steps[0], steps[1..][..k]);
    }
    if StaysBelow(base, steps) {
      assert |base| + Descent(steps[..1]) >= 1;
      forall k | 0 <= k <= |steps[1..]|
        ensures |next| + Descent(steps[1..][..k]) >= 1
      {
        assert |base| + Descent(steps[..k + 1]) >= 1;
      }
    }
    if |next| >= 1 && StaysBelow(next, steps[1..]) {
      forall k | 0 <= k <= |steps|
        ensures |base| + Descent(steps[..k]) >= 1
      {
        if k > 0 {
          assert |next| + Descent(steps[1..][..k - 1]) >= 1;
        }
      }
    }
  }

  /** A specifier resolves exactly when no step leads above `dist`, and never to a place outside it. */
  lemma {:induction false} ResolvesExactly(base: Path, steps: seq<Component>)
    requires UnderDist(base)
    ensures Resolve(base, steps).Some? <==> StaysBelow(base, steps)
    ensures Resolve(base, steps).Some? ==>
      UnderDist(Resolve(base, steps).value) && |Resolve(base, steps).value| == |base| + Descent(steps)
    decreases |steps|
  {
    if steps == [] {
      assert Descent(steps[..0]) == 0;
    } else {
      assert Descent([]) == 0 && [steps[0]][..0] == [];
      assert steps == [steps[0]] + steps[1..];
      DescentSplits(steps[0], steps[1..]);
      match steps[0]
      case Current =>
        StaysBelowSplits(base, base, steps);
        ResolvesExactly(base, steps[1..]);
      case Normal(name) =>
        StaysBelowSplits(base, base + [name], steps);
        ResolvesExactly(base + [name], steps[1..]);
      case Parent =>
        StaysBelowSplits(base, base[..|base| - 1], steps);
        if |base| > 1 {
          ResolvesExactly(base[..|base| - 1], steps[1..]);
        }
    }
  }

  method ResolveSpecifier(base: Path, steps: seq<Component>) returns (r: Option<Path>)
    ensures r == Resolve(base, steps)
  {
    var next := base;
    for i := 0 to |steps|
      invariant Resolve(next, steps[i..]) == Resolve(base, steps)
    {
      assert steps[i..][1..] == steps[i + 1..];
      match steps[i]
      case Current =>
      case Normal(name) =>
        next := next + [name];
      case Parent =>
        if next == [] {
          return None;
        }
        next := next[..|next| - 1];
        if !UnderDist(next) {
          return None;
        }
    }
    return Some(next);
  }

  // ------------------------------------------------------------ the import graph

  /** The declared name of a path: its components joined by slashes, with backslashes turned into slashes. */
  function NameOf(p: Path): Name {
    if p == [] then []
    else if |p| == 1 then Slashed(p[0])
    else Slashed(p[0]) + [SLASH] + NameOf(p[1..])
  }

  function Slashed(s: Name): Name {
    seq(|s|, i requires 0 <= i < |s| => if s[i] == BACKSLASH then SLASH else s[i])
  }

  function Directory(p: Path): Path {
    if p == [] then [] else p[..|p| - 1]
  }

  predicate Imports(payload: Payload, p: Path, q: Path) {
    p in payload.imports && exists spec | spec in payload.imports[p] :: Resolve(Directory(p), spec) == Some(q)
  }

  /** Declared, readable, and none of its imports leaves `dist`. */
  predicate Sound(payload: Payload, p: Path) {
    && NameOf(p) in payload.declared
    && p in payload.imports
    && forall spec | spec in payload.imports[p] :: Resolve(Directory(p), spec).Some?
  }

  ghost predicate Trail(payload: Payload, trail: seq<Path>) {
    && trail != []
    && trail[0] == INDEX
    && forall i | 0 <= i < |trail| - 1 :: Imports(payload, trail[i], trail[i + 1])
  }

  ghost predicate Reachable(payload: Payload, p: Path) {
    exists trail :: Trail(payload, trail) && trail[|trail| - 1] == p
  }

  ghost predicate Accepted(payload: Payload) {
    && (forall p | Reachable(payload, p) :: Sound(payload, p))
    && Reachable(payload, INPUT)
    && Reachable(payload, BOUND)
  }

  lemma IndexIsReachable(payload: Payload)
    ensures Reachable(payload, INDEX)
  {
    assert Trail(payload, [INDEX]) && [INDEX][0] == INDEX;
  }

  lemma ImportIsReachable(payload: Payload, p: Path, q: Path)
    requires Reachable(payload, p) && Imports(payload, p, q)
    ensures Reachable(payload, q)
  {
    var trail :| Trail(payload, trail) && trail[|trail| - 1] == p;
    var longer := trail + [q];
    assert Trail(payload, longer) && longer[|longer| - 1] == q;
  }

  /** A set with the index that is closed under imports has everything reachable. */
  lemma {:induction false} ClosedHasTrail(payload: Payload, found: set<Path>, trail: seq<Path>)
    requires INDEX in found && forall p, q | p in found && Imports(payload, p, q) :: q in found
    requires Trail(payload, trail)
    ensures trail[|trail| - 1] in found
    decreases |trail|
  {
    if |trail| > 1 {
      var shorter := trail[..|trail| - 1];
      ClosedHasTrail(payload, found, shorter);
      assert Imports(payload, trail[|trail| - 2], trail[|trail| - 1]);
    }
  }

  // ------------------------------------------------------------ the search

  /** What the search has found: all of it reachable, and every import of a visited module is known. */
  ghost predicate Searching(payload: Payload, visited: set<Path>, stack: seq<Path>) {
    && (forall p | p in visited || p in stack :: Reachable(payload, p))
    && (INDEX in visited || INDEX in stack)
    && (forall p | p in visited :: Sound(payload, p))
    && (forall p, q | p in visited && Imports(payload, p, q) :: q in visited || q in stack)
  }

  /** The resolved imports of `p`, in order, or nothing when one leaves `dist`. */
  method Targets(payload: Payload, p: Path) returns (r: Option<seq<Path>>)
    requires p in payload.imports
    ensures r.Some? <==> forall spec | spec in payload.imports[p] :: Resolve(Directory(p), spec).Some?
    ensures r.Some? ==> forall q :: q in r.value <==> Imports(payload, p, q)
  {
    var specs := payload.imports[p];
    var targets: seq<Path> := [];
    for i := 0 to |specs|
      invariant |targets| == i
      invariant forall k | 0 <= k < i :: Resolve(Directory(p), specs[k]) == Some(targets[k])
    {
      var next := ResolveSpecifier(Directory(p), specs[i]);
      if next.None? {
        return None;
      }
      targets := targets + [next.value];
    }
    return Some(targets);
  }

  lemma Visit(payload: Payload, visited: set<Path>, stack: seq<Path>, p: Path, targets: seq<Path>)
    requires Searching(payload, visited, stack + [p]) && Sound(payload, p)
    requires forall q :: q in targets <==> Imports(payload, p, q)
    ensures Searching(payload, visited + {p}, stack + targets)
  {
    assert p in stack + [p];
    forall q | q in targets
      ensures Reachable(payload, q)
    {
      ImportIsReachable(payload, p, q);
    }
    assert forall q | q in stack :: q in stack + [p];
  }

  lemma Exhausted(payload: Payload, visited: set<Path>)
    requires Searching(payload, visited, [])
    ensures forall p :: Reachable(payload, p) <==> p in visited
    ensures forall p | Reachable(payload, p) :: Sound(payload, p)
    ensures Accepted(payload) <==> INPUT in visited && BOUND in visited
  {
    forall p | Reachable(payload, p)
      ensures p in visited
    {
      var trail :| Trail(payload, trail) && trail[|trail| - 1] == p;
      ClosedHasTrail(payload, visited, trail);
    }
  }

  lemma FewerUnvisited(known: set<Path>, visited: set<Path>, p: Path)
    requires p in known && p !in visited
    ensures |known - (visited + {p})| < |known - visited|
  {
    assert known - visited == (known - (visited + {p})) + {p};
  }

  lemma IndexName()
    ensures NameOf(INDEX) == INDEX_NAME
  {
    assert NameOf(INDEX[1..]) == Slashed(Ascii("index.js")) == Ascii("index.js");
    assert Slashed(DIST) == DIST;
    assert DIST + [SLASH] + Ascii("index.js") == INDEX_NAME;
  }

  lemma Starting(payload: Payload)
    ensures Searching(payload, {}, [INDEX]) && (Accepted(payload) ==> INDEX_NAME in payload.declared)
  {
    IndexIsReachable(payload);
    IndexName();
    hide NameOf, Resolve;
  }

  lemma Skip(payload: Payload, visited: set<Path>, stack: seq<Path>, p: Path)
    requires Searching(payload, visited, stack + [p])
    ensures p in visited ==> Searching(payload, visited, stack)
    ensures Accepted(payload) ==> Sound(payload, p)
  {
    assert p in stack + [p];
    assert forall q | q in stack :: q in stack + [p];
  }

  /** What a module imports, unless it is undeclared or unreadable or imports from outside `dist`. */
  method Expand(payload: Payload, p: Path) returns (r: Option<seq<Path>>)
    ensures r.Some? <==> Sound(payload, p)
    ensures r.Some? ==> p in payload.imports && forall q :: q in r.value <==> Imports(payload, p, q)
  {
    hide Imports, NameOf;
    if NameOf(p) !in payload.declared || p !in payload.imports {
      return None;
    }
    r := Targets(payload, p);
  }

  method VerifyReachability(payload: Payload) returns (ok: bool)
    ensures ok <==> Accepted(payload)
  {
    Starting(payload);
    hide *;
    if INDEX_NAME !in payload.declared {
      return false;
    }
    var stack: seq<Path> := [INDEX];
    var visited: set<Path> := {};
    while stack != []
      invariant Searching(payload, visited, stack)
      decreases |payload.imports.Keys - visited|, |stack|
    {
      var p, rest := stack[|stack| - 1], stack[..|stack| - 1];
      assert stack == rest + [p];
      Skip(payload, visited, rest, p);
      stack := rest;
      if p !in visited {
        var targets := Expand(payload, p);
        if targets.None? {
          return false;
        }
        Visit(payload, visited, rest, p, targets.value);
        FewerUnvisited(payload.imports.Keys, visited, p);
        visited := visited + {p};
        stack := rest + targets.value;
      }
    }
    Exhausted(payload, visited);
    return INPUT in visited && BOUND in visited;
  }
}
