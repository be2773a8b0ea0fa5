/**
 Regular expressions over bytes and the strings they match as a whole.

 An expression is a tree of classes, sequences, alternatives and repetitions, and what it matches is
 defined by splitting the string. The lemmas say what the forms match that the browser's validators
 use: repeated classes, literal beginnings, counted classes and optional tails. Both ends are
 anchored, as in those validators.
 */
module Regex {
  import opened Bytes

  datatype Regex =
    | Empty
    | Class(has: Byte -> bool)
    | Then(first: Regex, second: Regex)
    | Or(left: Regex, right: Regex)
    | Star(body: Regex)

  ghost predicate Matches(r: Regex, s: seq<Byte>)
    decreases r, |s|
  {
    match r
    case Empty => s == []
    case Class(has) => |s| == 1 && has(s[0])
    case Then(first, second) => exists k | 0 <= k <= |s| :: Matches(first, s[..k]) && Matches(second, s[k..])
    case Or(left, right) => Matches(left, s) || Matches(right, s)
    case Star(body) => s == [] || exists k | 0 < k <= |s| :: Matches(body, s[..k]) && Matches(r, s[k..])
  }

  function Plus(r: Regex): Regex {
    Then(r, Star(r))
  }

  function Optional(r: Regex): Regex {
    Or(r, Empty)
  }

  /** The bytes of `text`, then `r`. */
  function After(text: seq<Byte>, r: Regex): Regex {
    if text == [] then r else Then(Class((b: Byte) => b == text[0]), After(text[1..], r))
  }

  function Repeat(r: Regex, n: nat): Regex {
    if n == 0 then Empty else Then(r, Repeat(r, n - 1))
  }

  // ------------------------------------------------------------ what the forms match

  lemma MatchThen(a: Regex, b: Regex, x: seq<Byte>, y: seq<Byte>)
    requires Matches(a, x) && Matches(b, y)
    ensures Matches(Then(a, b), x + y)
  {
    var s := x + y;
    assert s[..|x|] == x && s[|x|..] == y;
  }

  lemma SplitThen(a: Regex, b: Regex, s: seq<Byte>) returns (x: seq<Byte>, y: seq<Byte>)
    requires Matches(Then(a, b), s)
    ensures s == x + y && Matches(a, x) && Matches(b, y)
  {
    var k :| 0 <= k <= |s| && Matches(a, s[..k]) && Matches(b, s[k..]);
    x, y := s[..k], s[k..];
  }

  lemma MatchStar(body: Regex, x: seq<Byte>, y: seq<Byte>)
    requires Matches(body, x) && Matches(Star(body), y)
    ensures Matches(Star(body), x + y)
  {
    var s := x + y;
    assert s[..|x|] == x && s[|x|..] == y;
    if x == [] {
      assert s == y;
    }
  }

  lemma SplitStar(body: Regex, s: seq<Byte>) returns (x: seq<Byte>, y: seq<Byte>)
    requires s != [] && Matches(Star(body), s)
    ensures s == x + y && x != [] && Matches(body, x) && Matches(Star(body), y)
  {
    var k :| 0 < k <= |s| && Matches(body, s[..k]) && Matches(Star(body), s[k..]);
    x, y := s[..k], s[k..];
  }

  lemma LeftToRight(a: Regex, b: Regex, c: Regex, s: seq<Byte>)
    requires Matches(Then(Then(a, b), c), s)
    ensures Matches(Then(a, Then(b, c)), s)
  {
    hide Matches;
    var xy, z := SplitThen(Then(a, b), c, s);
    var x, y := SplitThen(a, b, xy);
    MatchThen(b, c, y, z);
    MatchThen(a, Then(b, c), x, y + z);
    assert s == x + (y + z);
  }

  lemma RightToLeft(a: Regex, b: Regex, c: Regex, s: seq<Byte>)
    requires Matches(Then(a, Then(b, c)), s)
    ensures Matches(Then(Then(a, b), c), s)
  {
    hide Matches;
    var x, yz := SplitThen(a, Then(b, c), s);
    var y, z := SplitThen(b, c, yz);
    MatchThen(a, b, x, y);
    MatchThen(Then(a, b), c, x + y, z);
    assert s == x + y + z;
  }

  lemma ThenIsAssociative(a: Regex, b: Regex, c: Regex, s: seq<Byte>)
    ensures Matches(Then(Then(a, b), c), s) <==> Matches(Then(a, Then(b, c)), s)
  {
    hide Matches;
    if Matches(Then(Then(a, b), c), s) {
      LeftToRight(a, b, c, s);
    }
    if Matches(Then(a, Then(b, c)), s) {
      RightToLeft(a, b, c, s);
    }
  }

  lemma ClassThen(has: Byte -> bool, r: Regex, s: seq<Byte>)
    ensures Matches(Then(Class(has), r), s) <==> s != [] && has(s[0]) && Matches(r, s[1..])
  {
    if Matches(Then(Class(has), r), s) {
      var x, y := SplitThen(Class(has), r, s);
      assert s[1..] == y;
    }
    if s != [] && has(s[0]) && Matches(r, s[1..]) {
      MatchThen(Class(has), r, [s[0]], s[1..]);
      assert s == [s[0]] + s[1..];
    }
  }

  lemma {:induction false} StarClass(has: Byte -> bool, s: seq<Byte>)
    ensures Matches(Star(Class(has)), s) <==> forall b | b in s :: has(b)
    decreases |s|
  {
    var r := Star(Class(has));
    if s != [] {
      StarClass(has, s[1..]);
      assert s == [s[0]] + s[1..];
      if Matches(r, s) {
        var k :| 0 < k <= |s| && Matches(Class(has), s[..k]) && Matches(r, s[k..]);
        assert k == 1;
      }
      if forall b | b in s :: has(b) {
        assert Matches(Class(has), s[..1]) && Matches(r, s[1..]);
      }
    }
  }

  lemma PlusClass(has: Byte -> bool, s: seq<Byte>)
    ensures Matches(Plus(Class(has)), s) <==> s != [] && forall b | b in s :: has(b)
  {
    ClassThen(has, Star(Class(has)), s);
    if s != [] {
      StarClass(has, s[1..]);
      assert s == [s[0]] + s[1..];
    }
  }

  lemma {:induction false} MatchesAfter(text: seq<Byte>, r: Regex, s: seq<Byte>)
    ensures Matches(After(text, r), s) <==> text <= s && Matches(r, s[|text|..])
    decreases |text|
  {
    if text == [] {
      assert s[0..] == s;
    } else {
      ClassThen((b: Byte) => b == text[0], After(text[1..], r), s);
      if s != [] {
        MatchesAfter(text[1..], r, s[1..]);
        assert text == [text[0]] + text[1..] && s == [s[0]] + s[1..];
        if |text| <= |s| {
          assert s[1..][|text| - 1..] == s[|text|..];
        }
      }
    }
  }

  lemma {:induction false} RepeatClass(has: Byte -> bool, n: nat, s: seq<Byte>)
    ensures Matches(Repeat(Class(has), n), s) <==> |s| == n && forall b | b in s :: has(b)
    decreases n
  {
    if n > 0 {
      ClassThen(has, Repeat(Class(has), n - 1), s);
      if s != [] {
        RepeatClass(has, n - 1, s[1..]);
        assert s == [s[0]] + s[1..];
      }
    }
  }
}
