/** What an import in a module's text names. */
module ImportMeaning {
  /*
   The search takes specifiers from the lines of a module's text and resolves them step by step. Here the
   specifiers are read off the text as an author writes them, and a specifier's meaning is stated on the
   module's own path: so many directories up, then the names.
  */

  import opened Options
  import opened Bytes
  import opened Trimming
  import opened ModuleSearch

  // ------------------------------------------------------------ up, then down

  /** How far the steps climb above where they start, and the names they then descend to. */
  function Net(steps: seq<Component>): (nat, seq<Name>) {
    if steps == [] then (0, [])
    else
      var (ups, names) := Net(steps[..|steps| - 1]);
      match steps[|steps| - 1]
      case Current => (ups, names)
      case Normal(name) => (ups, names + [name])
      case Parent => if names == [] then (ups + 1, []) else (ups, names[..|names| - 1])
  }

  lemma {:induction false} ResolveJoins(base: Path, a: seq<Component>, b: seq<Component>)
    ensures Resolve(base, a + b) ==
      match Resolve(base, a) { case Some(mid) => Resolve(mid, b) case None => None }
    decreases |a|
  {
    if a == [] {
      assert a + b == b;
    } else {
      assert (a + b)[1..] == a[1..] + b && (a + b)[0] == a[0];
      match a[0] {
        case Current => ResolveJoins(base, a[1..], b);
        case Normal(name) => ResolveJoins(base + [name], a[1..], b);
        case Parent =>
          if base != [] && UnderDist(base[..|base| - 1]) {
            ResolveJoins(base[..|base| - 1], a[1..], b);
          }
      }
    }
  }

  lemma ResolveOne(base: Path, step: Component)
    ensures Resolve(base, [step]) ==
      match step
      case Current => Some(base)
      case Normal(name) => Some(base + [name])
      case Parent => if base == [] || !UnderDist(base[..|base| - 1]) then None else Some(base[..|base| - 1])
  {
    var rest: seq<Component> := [step][1..];
    assert rest == [];
  }

  lemma {:induction false} ResolveIsNet(base: Path, steps: seq<Component>)
    requires UnderDist(base) && Resolve(base, steps).Some?
    ensures
      var (ups, names) := Net(steps);
      ups < |base| && Resolve(base, steps) == Some(base[..|base| - ups] + names)
    decreases |steps|
  {
    if steps != [] {
      var front, last := steps[..|steps| - 1], steps[|steps| - 1];
      assert steps == front + [last];
      ResolveJoins(base, front, [last]);
      ResolveIsNet(base, front);
      var (ups, names) := Net(front);
      assert Resolve(base, front) == Some(base[..|base| - ups] + names);
      NetStep(base, ups, names, last);
    } else {
      assert base[..|base|] + [] == base;
    }
  }

  /** One more step from a place that lies `names` below an ancestor of `base`. */
  lemma NetStep(base: Path, ups: nat, names: seq<Name>, step: Component)
    requires UnderDist(base) && ups < |base| && Resolve(base[..|base| - ups] + names, [step]).Some?
    ensures
      var r := Resolve(base[..|base| - ups] + names, [step]).value;
      match step
      case Current => r == base[..|base| - ups] + names
      case Normal(name) => r == base[..|base| - ups] + (names + [name])
      case Parent =>
        if names == [] then ups + 1 < |base| && r == base[..|base| - (ups + 1)] + []
        else r == base[..|base| - ups] + names[..|names| - 1]
  {
    var mid := base[..|base| - ups] + names;
    ResolveOne(mid, step);
    match step {
      case Current =>
      case Normal(name) => assert mid + [name] == base[..|base| - ups] + (names + [name]);
      case Parent =>
        if names == [] {
          assert mid[..|mid| - 1] == base[..|base| - (ups + 1)] + [];
        } else {
          assert mid[..|mid| - 1] == base[..|base| - ups] + names[..|names| - 1];
        }
    }
  }

  function Parents(j: nat): seq<Component> {
    seq(j, i => Parent)
  }

  function Normals(names: seq<Name>): seq<Component> {
    seq(|names|, i requires 0 <= i < |names| => Normal(names[i]))
  }

  lemma {:induction false} NetOfParents(j: nat)
    ensures Net(Parents(j)) == (j, [])
  {
    if j > 0 {
      NetOfParents(j - 1);
      assert Parents(j)[..j - 1] == Parents(j - 1);
    }
  }

  lemma {:induction false} NetOfNormals(steps: seq<Component>, names: seq<Name>)
    ensures Net(steps + Normals(names)) == (Net(steps).0, Net(steps).1 + names)
    decreases |names|
  {
    var all := steps + Normals(names);
    if names == [] {
      assert all == steps && Net(steps).1 + names == Net(steps).1;
    } else {
      var front := names[..|names| - 1];
      assert all[..|all| - 1] == steps + Normals(front) && all[|all| - 1] == Normal(names[|names| - 1]);
      NetOfNormals(steps, front);
      assert Net(steps).1 + front + [names[|names| - 1]] == Net(steps).1 + names;
    }
  }

  /**
   A specifier that climbs `j` directories and then names `names`, in the module `d + [f]`, names the file
   `names` under what is left of `d`; climbing out of `dist` is refused.
  */
  lemma ImportLeads(d: Path, f: Name, j: nat, names: seq<Name>)
    requires UnderDist(d)
    ensures Resolve(Directory(d + [f]), Parents(j) + Normals(names)) ==
      if j < |d| then Some(d[..|d| - j] + names) else None
  {
    assert Directory(d + [f]) == d;
    ResolveParents(d, j);
    ResolveJoins(d, Parents(j), Normals(names));
    if j < |d| {
      ResolveNormals(d[..|d| - j], names);
    }
  }

  lemma {:induction false} ResolveParents(d: Path, j: nat)
    requires UnderDist(d)
    ensures Resolve(d, Parents(j)) == if j < |d| then Some(d[..|d| - j]) else None
    decreases j
  {
    if j > 0 {
      assert Parents(j)[0] == Parent && Parents(j)[1..] == Parents(j - 1);
      if |d| > 1 {
        ResolveParents(d[..|d| - 1], j - 1);
        assert j < |d| ==> d[..|d| - 1][..|d| - 1 - (j - 1)] == d[..|d| - j];
      }
    } else {
      assert d[..|d|] == d;
    }
  }

  lemma {:induction false} ResolveNormals(d: Path, names: seq<Name>)
    ensures Resolve(d, Normals(names)) == Some(d + names)
    decreases |names|
  {
    if names != [] {
      assert Normals(names)[0] == Normal(names[0]) && Normals(names)[1..] == Normals(names[1..]);
      ResolveNormals(d + [names[0]], names[1..]);
      assert d + [names[0]] + names[1..] == d + names;
    } else {
      assert d + names == d;
    }
  }

  // ------------------------------------------------------------ the specifier as it is written

  /** Parts with slashes between them. */
  function Written(parts: seq<Name>): seq<Byte> {
    if parts == [] then [] else if |parts| == 1 then parts[0] else parts[0] + [SLASH] + Written(parts[1..])
  }

  predicate IsName(part: Name) {
    part != [] && part != Ascii(".") && part != Ascii("..") && SLASH !in part
  }

  function Dots(j: nat): seq<Name> {
    if j == 0 then [Ascii(".")] else seq(j, i => Ascii(".."))
  }

  lemma {:induction false} SplitWritten(parts: seq<Name>)
    requires parts != [] && forall i | 0 <= i < |parts| :: SLASH !in parts[i]
    ensures Split(Written(parts), SLASH) == parts
  {
    SplitPiece(parts[0], SLASH, Written(parts[1..]));
    if |parts| > 1 {
      SplitWritten(parts[1..]);
      assert parts == [parts[0]] + parts[1..];
    }
  }

  lemma {:induction false} ComponentsOfNames(front: seq<Name>, names: seq<Name>)
    requires front != [] && forall i | 0 <= i < |names| :: IsName(names[i])
    ensures PartComponents(front + names) == PartComponents(front) + Normals(names)
    decreases |names|
  {
    var all := front + names;
    if names == [] {
      assert all == front;
    } else {
      var shorter := names[..|names| - 1];
      assert all[..|all| - 1] == front + shorter && all[|all| - 1] == names[|names| - 1];
      ComponentsOfNames(front, shorter);
      assert Normals(names) == Normals(shorter) + [Normal(names[|names| - 1])];
    }
  }

  lemma {:induction false} ComponentsOfDots(j: nat)
    ensures PartComponents(Dots(j)) == if j == 0 then [Current] else Parents(j)
    decreases j
  {
    assert Ascii(".") != Ascii("..") && Ascii(".")[..0] == [];
    if j > 1 {
      ComponentsOfDots(j - 1);
      assert Dots(j)[..j - 1] == Dots(j - 1);
      assert Parents(j) == Parents(j - 1) + [Parent];
    } else {
      assert Dots(j)[..0] == [];
    }
  }

  lemma DotsAndNames(j: nat, names: seq<Name>)
    requires forall i | 0 <= i < |names| :: IsName(names[i])
    ensures Dots(j) != [] && Dots(j) + names != []
    ensures forall i | 0 <= i < |Dots(j) + names| :: SLASH !in (Dots(j) + names)[i]
  {
    assert forall i | 0 <= i < |Dots(j)| :: SLASH !in Dots(j)[i];
    hide Dots;
  }

  lemma ComponentsAre(spec: seq<Byte>)
    ensures ComponentsOf(spec) == PartComponents(Split(spec, SLASH))
  {
  }

  /** `./a/b.js` is a current step and two names; `../../c.js` is two parents and a name. */
  lemma WrittenComponents(j: nat, names: seq<Name>)
    requires forall i | 0 <= i < |names| :: IsName(names[i])
    ensures ComponentsOf(Written(Dots(j) + names)) == (if j == 0 then [Current] else Parents(j)) + Normals(names)
  {
    hide *;
    DotsAndNames(j, names);
    ComponentsAre(Written(Dots(j) + names));
    SplitWritten(Dots(j) + names);
    ComponentsOfDots(j);
    ComponentsOfNames(Dots(j), names);
  }

  /** What an import means, from its text to the file it names: no step of the program's is on the right. */
  lemma WrittenLeads(d: Path, f: Name, j: nat, names: seq<Name>)
    requires UnderDist(d) && forall i | 0 <= i < |names| :: IsName(names[i])
    ensures Resolve(Directory(d + [f]), ComponentsOf(Written(Dots(j) + names))) ==
      if j < |d| then Some(d[..|d| - j] + names) else None
  {
    hide *;
    WrittenComponents(j, names);
    ImportLeads(d, f, j, names);
    if j == 0 {
      CurrentStays(d, f, names);
      ImportLeads(d, f, 0, names);
    }
  }

  lemma CurrentStays(d: Path, f: Name, names: seq<Name>)
    ensures Resolve(Directory(d + [f]), [Current] + Normals(names)) ==
      Resolve(Directory(d + [f]), Parents(0) + Normals(names))
  {
    assert ([Current] + Normals(names))[1..] == Normals(names) == Parents(0) + Normals(names);
  }

  /** Empty parts, and "." after the first part, are no steps. */
  lemma {:induction false} DotsAreNoSteps(front: seq<Name>, dot: Name, rest: seq<Name>)
    requires front != [] && (dot == [] || dot == Ascii("."))
    ensures PartComponents(front + [dot] + rest) == PartComponents(front + rest)
    decreases |rest|
  {
    var all, fewer := front + [dot] + rest, front + rest;
    if rest == [] {
      assert fewer == front && all[..|all| - 1] == front && |all| > 1;
      assert Ascii("..")[1] == 46 && |Ascii(".")| == 1 && |Ascii("..")| == 2;
    } else {
      var shorter := rest[..|rest| - 1];
      assert all[..|all| - 1] == front + [dot] + shorter && fewer[..|fewer| - 1] == front + shorter;
      DotsAreNoSteps(front, dot, shorter);
    }
  }

  const HERE: seq<Byte> := Ascii("./")
  const UP: seq<Byte> := Ascii("../")
  const JS: seq<Byte> := Ascii(".js")
  const MJS: seq<Byte> := Ascii(".mjs")

  predicate Spells(spec: seq<Byte>, head: seq<Byte>, name: seq<Byte>, end: seq<Byte>) {
    (head == HERE || head == UP) && (end == JS || end == MJS) && spec == head + name + end
  }

  lemma RelativeMeans(spec: seq<Byte>)
    ensures IsRelative(spec) <==> (HERE <= spec || UP <= spec) && (EndsWith(spec, JS) || EndsWith(spec, MJS))
    ensures HERE != [] && HERE[|HERE| - 1] == 47 && UP != [] && UP[|UP| - 1] == 47 && 47 !in JS && 47 !in MJS
  {
    hide EndsWith;
  }

  /** Relative specifiers are those that start at the module's directory or above it and name a module file. */
  lemma RelativeExactly(spec: seq<Byte>)
    ensures IsRelative(spec) <==> exists head, name, end :: Spells(spec, head, name, end)
  {
    RelativeMeans(spec);
    hide HERE, UP, JS, MJS, IsRelative, EndsWith;
    if IsRelative(spec) {
      var head, end := if HERE <= spec then HERE else UP, if EndsWith(spec, JS) then JS else MJS;
      var name := Between(spec, head, end);
      assert Spells(spec, head, name, end);
    }
    if head, name, end :| Spells(spec, head, name, end) {
      EndsInEnd(head + name, end);
      assert head <= spec;
    }
  }

  lemma EndsInEnd(front: seq<Byte>, end: seq<Byte>)
    ensures EndsWith(front + end, end)
  {
  }

  /** What stands between a head that ends in a slash and an end without slashes. */
  lemma Between(spec: seq<Byte>, head: seq<Byte>, end: seq<Byte>) returns (name: seq<Byte>)
    requires head <= spec && EndsWith(spec, end) && head != [] && head[|head| - 1] == 47 && 47 !in end
    ensures spec == head + name + end
  {
    var n := |spec| - |end|;
    assert spec[n..] == end && spec[|head| - 1] == 47;
    assert forall j | 0 <= j < |end| :: spec[n + j] == end[j] && end[j] in end;
    assert |head| <= n by {
      assert forall j | n <= j < |spec| :: spec[j] == end[j - n];
    }
    name := spec[|head|..n];
  }

  // ------------------------------------------------------------ the line it stands on

  predicate QuoteFree(s: seq<Byte>) {
    34 !in s && 39 !in s
  }

  lemma {:induction false} NoIndex(s: seq<Byte>, b: Byte)
    requires b !in s
    ensures LastIndex(s, b).None?
    decreases |s|
  {
    if s != [] {
      NoIndex(s[..|s| - 1], b);
    }
  }

  lemma {:induction false} IndexOfLast(front: seq<Byte>, b: Byte, rest: seq<Byte>)
    requires b !in rest
    ensures LastIndex(front + [b] + rest, b) == Some(|front|)
    decreases |rest|
  {
    var s := front + [b] + rest;
    if rest != [] {
      assert s[..|s| - 1] == front + [b] + rest[..|rest| - 1] && s[|s| - 1] == rest[|rest| - 1];
      IndexOfLast(front, b, rest[..|rest| - 1]);
    }
  }

  lemma QuotedSpec(head: seq<Byte>, quote: Byte, spec: seq<Byte>, tail: seq<Byte>)
    requires quote !in head && quote !in spec && quote !in tail
    ensures Quoted(head + [quote] + spec + [quote] + tail, quote) == if IsRelative(spec) then [spec] else []
  {
    var line := head + [quote] + spec + [quote] + tail;
    var front := head + [quote] + spec;
    IndexOfLast(front, quote, tail);
    assert line == front + [quote] + tail && line[..|front|] == front;
    IndexOfLast(head, quote, spec);
    hide LastIndex, IsRelative;
    assert line[|head| + 1..|front|] == spec;
  }

  lemma NothingQuoted(line: seq<Byte>, quote: Byte)
    requires quote !in line
    ensures Quoted(line, quote) == []
  {
    NoIndex(line, quote);
  }

  /** A line that imports or exports from one relative specifier, in quotes of either kind, has that specifier. */
  lemma ImportLine(
      before: seq<Byte>, keyword: seq<Byte>, clause: seq<Byte>, quote: Byte, spec: seq<Byte>, tail: seq<Byte>,
      after: seq<Byte>)
    requires Blank(before) && Blank(after) && keyword in {Ascii("import "), Ascii("export ")} && quote in {34, 39}
    requires QuoteFree(clause) && QuoteFree(spec) && QuoteFree(tail) && (tail != [] ==> Visible(tail[|tail| - 1]))
    ensures LineSpecifiers(before + (keyword + clause + [quote] + spec + [quote] + tail) + after) ==
      if IsRelative(spec) then [spec] else []
  {
    var head, other: Byte := keyword + clause, if quote == 34 then 39 else 34;
    var line := head + [quote] + spec + [quote] + tail;
    KeywordStarts(keyword);
    assert keyword <= line && line[0] == keyword[0];
    assert line[|line| - 1] == if tail == [] then quote else tail[|tail| - 1];
    hide Ascii, Trim, Quoted, IsRelative;
    Trimmed(before, line, after);
    QuotedSpec(head, quote, spec, tail);
    NothingQuoted(line, other);
  }

  lemma KeywordStarts(keyword: seq<Byte>)
    requires keyword in {Ascii("import "), Ascii("export ")}
    ensures keyword != [] && Visible(keyword[0]) && QuoteFree(keyword)
  {
  }

  /** A line whose text starts with another word has none. */
  lemma OtherLine(before: seq<Byte>, text: seq<Byte>, after: seq<Byte>)
    requires Blank(before) && Blank(after) && text != [] && Visible(text[0]) && Visible(text[|text| - 1])
    requires !(Ascii("import ") <= text) && !(Ascii("export ") <= text)
    ensures LineSpecifiers(before + text + after) == []
  {
    Trimmed(before, text, after);
  }

  /** The specifiers of a text are those of its lines, in order. */
  lemma {:induction false} LinesInOrder(a: seq<seq<Byte>>, b: seq<seq<Byte>>)
    ensures LinesSpecifiers(a + b) == LinesSpecifiers(a) + LinesSpecifiers(b)
    ensures forall line :: LinesSpecifiers([line]) == LineSpecifiers(line)
    decreases |b|
  {
    hide LineSpecifiers;
    forall line: seq<Byte>
      ensures LinesSpecifiers([line]) == LineSpecifiers(line)
    {
      var none: seq<seq<Byte>> := [line][..0];
      assert none == [];
    }
    if b == [] {
      assert a + b == a;
    } else {
      assert (a + b)[..|a + b| - 1] == a + b[..|b| - 1];
      LinesInOrder(a, b[..|b| - 1]);
    }
  }

  lemma {:induction false} SpecifierOfLine(lines: seq<seq<Byte>>, line: seq<Byte>, spec: seq<Byte>)
    requires line in lines && spec in LineSpecifiers(line)
    ensures spec in LinesSpecifiers(lines)
    decreases |lines|
  {
    var front, last := lines[..|lines| - 1], lines[|lines| - 1];
    if line != last {
      assert lines == front + [last];
      SpecifierOfLine(front, line, spec);
    }
  }

  lemma WrittenNet(j: nat, names: seq<Name>)
    requires forall i | 0 <= i < |names| :: IsName(names[i])
    ensures Net(ComponentsOf(Written(Dots(j) + names))) == (j, names)
  {
    WrittenComponents(j, names);
    NetOfParents(j);
    NetOfNormals(if j == 0 then [Current] else Parents(j), names);
    hide ComponentsOf, Written;
    assert [] + names == names;
    assert Net([Current]) == (0, []) by {
      var none: seq<Component> := [Current][..0];
      assert none == [];
    }
  }
}
