/** Texts with white space around them. */
module Trimming {
  // What is left when the white space around a text is trimmed, and which characters are white space.

  import opened Bytes
  import opened Lists
  import opened Utf8

  /** The characters with the property White_Space. */
  predicate IsWhite(n: nat) {
    || 9 <= n <= 13 || n in {0x20, 0x85, 0xA0, 0x1680, 0x2028, 0x2029, 0x202F, 0x205F, 0x3000} || 0x2000 <= n <= 0x200A
  }

  lemma WhiteIsSpace(n: nat)
    requires IsWhite(n)
    ensures n < 0x11_0000 && IsSpace(CharBytes(n))
  {
    if 0x2000 <= n < 0x2040 {
      assert CharBytes(n) == [0xE2, 0x80, 0x80 + (n - 0x2000)];
    }
  }

  lemma SpaceIsWhite(c: seq<Byte>) returns (n: nat)
    requires IsSpace(c)
    ensures n < 0x11_0000 && IsWhite(n) && c == CharBytes(n)
  {
    if |c| == 1 {
      n := c[0];
    } else if |c| == 2 {
      n := c[1];
    } else if c[0] == 0xE2 && c[1] == 0x80 {
      var last: nat := c[2] - 0x80;
      n := 0x2000 + last;
    } else {
      n := if c[0] == 0xE1 then 0x1680 else if c[0] == 0xE2 then 0x205F else 0x3000;
    }
  }

  /** The bytes that are trimmed are those of white space. */
  lemma SpacesExactly(c: seq<Byte>)
    ensures IsSpace(c) <==> exists n: nat :: IsWhite(n) && n < 0x11_0000 && c == CharBytes(n)
  {
    hide IsSpace, IsWhite, CharBytes;
    if IsSpace(c) {
      var n := SpaceIsWhite(c);
    }
    forall n: nat | IsWhite(n) && n < 0x11_0000 && c == CharBytes(n)
      ensures IsSpace(c)
    {
      WhiteIsSpace(n);
    }
  }

  /** White space of any length. */
  ghost predicate Blank(s: seq<Byte>) {
    exists chars: seq<seq<Byte>> :: AllSpaces(chars) && s == Concat(chars)
  }

  predicate AllSpaces(chars: seq<seq<Byte>>) {
    forall i | 0 <= i < |chars| :: IsSpace(chars[i])
  }

  predicate Visible(b: Byte) {
    32 < b < 127
  }

  lemma OneByte(x: Byte)
    ensures IsSpace([x]) ==> 9 <= x <= 32
  {
  }

  lemma TwoBytes(x: Byte, y: Byte)
    ensures IsSpace([x, y]) ==> x == 0xC2 && y >= 0x80
  {
  }

  lemma ThreeBytes(x: Byte, y: Byte, z: Byte)
    ensures IsSpace([x, y, z]) ==> x in {0xE1, 0xE2, 0xE3} && y in {0x80, 0x81, 0x9A} && z >= 0x80
  {
  }

  /** No white space starts or ends inside another. */
  lemma SpaceShape(c: seq<Byte>)
    requires IsSpace(c)
    ensures 1 <= |c| <= 3 && !Visible(c[0]) && !Visible(c[|c| - 1])
    ensures |c| > 1 ==> !IsSpace(c[..1]) && !IsSpace(c[|c| - 1..])
    ensures |c| > 2 ==> !IsSpace(c[..2]) && !IsSpace(c[|c| - 2..])
  {
    assert 1 <= |c| <= 3;
    hide IsSpace;
    var n := |c|;
    assert c[..1] == [c[0]] && c[n - 1..] == [c[n - 1]];
    OneByte(c[0]);
    OneByte(c[n - 1]);
    if n == 2 {
      assert c == [c[0], c[1]];
      TwoBytes(c[0], c[1]);
    } else if n == 3 {
      assert c == [c[0], c[1], c[2]] && c[..2] == [c[0], c[1]] && c[1..] == [c[1], c[2]];
      TwoBytes(c[0], c[1]);
      TwoBytes(c[1], c[2]);
      ThreeBytes(c[0], c[1], c[2]);
    } else {
      assert c == [c[0]];
    }
  }

  lemma NoSpaceStart(s: seq<Byte>, k: nat)
    requires 1 <= k <= |s| && Visible(s[0])
    ensures !IsSpace(s[..k])
  {
    hide IsSpace, Visible;
    assert s[..k][0] == s[0];
    if IsSpace(s[..k]) {
      SpaceShape(s[..k]);
    }
  }

  lemma NoSpaceEnd(s: seq<Byte>, k: nat)
    requires 1 <= k <= |s| && Visible(s[|s| - 1])
    ensures !IsSpace(s[|s| - k..])
  {
    hide IsSpace, Visible;
    assert s[|s| - k..][k - 1] == s[|s| - 1];
    if IsSpace(s[|s| - k..]) {
      SpaceShape(s[|s| - k..]);
    }
  }

  lemma TrimStartStep(s: seq<Byte>, k: nat)
    requires 1 <= k <= 3 && k <= |s| && IsSpace(s[..k])
    requires (k > 1 ==> !IsSpace(s[..1])) && (k > 2 ==> !IsSpace(s[..2]))
    ensures TrimStart(s) == TrimStart(s[k..])
  {
    hide IsSpace;
  }

  lemma TrimEndOne(s: seq<Byte>)
    requires |s| >= 1 && IsSpace(s[|s| - 1..])
    ensures TrimEnd(s) == TrimEnd(s[..|s| - 1])
  {
    hide IsSpace;
  }

  lemma TrimEndTwo(s: seq<Byte>)
    requires |s| >= 2 && IsSpace(s[|s| - 2..]) && !IsSpace(s[|s| - 1..])
    ensures TrimEnd(s) == TrimEnd(s[..|s| - 2])
  {
    hide IsSpace;
  }

  lemma TrimEndThree(s: seq<Byte>)
    requires |s| >= 3 && IsSpace(s[|s| - 3..]) && !IsSpace(s[|s| - 1..]) && !IsSpace(s[|s| - 2..])
    ensures TrimEnd(s) == TrimEnd(s[..|s| - 3])
  {
    hide IsSpace;
  }

  /** A space at the start is taken off whole. */
  lemma StartStep(c: seq<Byte>, rest: seq<Byte>)
    requires IsSpace(c)
    ensures TrimStart(c + rest) == TrimStart(rest)
  {
    hide *;
    SpaceShape(c);
    var s := c + rest;
    assert s[..|c|] == c && s[|c|..] == rest;
    assert |c| > 1 ==> s[..1] == c[..1];
    assert |c| > 2 ==> s[..2] == c[..2];
    TrimStartStep(s, |c|);
  }

  lemma EndStep(front: seq<Byte>, c: seq<Byte>)
    requires IsSpace(c)
    ensures TrimEnd(front + c) == TrimEnd(front)
  {
    hide *;
    SpaceShape(c);
    var s := front + c;
    var n := |s|;
    assert s[n - |c|..] == c && s[..n - |c|] == front;
    assert |c| > 1 ==> s[n - 1..] == c[|c| - 1..];
    assert |c| > 2 ==> s[n - 2..] == c[|c| - 2..];
    if |c| == 1 {
      TrimEndOne(s);
    } else if |c| == 2 {
      TrimEndTwo(s);
    } else {
      TrimEndThree(s);
    }
  }

  lemma StartStops(s: seq<Byte>)
    requires s != [] && Visible(s[0])
    ensures TrimStart(s) == s
  {
    hide IsSpace, Visible;
    NoSpaceStart(s, 1);
    if |s| >= 2 {
      NoSpaceStart(s, 2);
    }
    if |s| >= 3 {
      NoSpaceStart(s, 3);
    }
  }

  lemma NothingToTrim(s: seq<Byte>)
    requires |s| >= 1 ==> !IsSpace(s[|s| - 1..])
    requires |s| >= 2 ==> !IsSpace(s[|s| - 2..])
    requires |s| >= 3 ==> !IsSpace(s[|s| - 3..])
    ensures TrimEnd(s) == s
  {
    hide IsSpace;
  }

  lemma EndStops(s: seq<Byte>)
    requires s != [] && Visible(s[|s| - 1])
    ensures TrimEnd(s) == s
  {
    hide *;
    NoSpaceEnd(s, 1);
    if |s| >= 2 {
      NoSpaceEnd(s, 2);
    }
    if |s| >= 3 {
      NoSpaceEnd(s, 3);
    }
    NothingToTrim(s);
  }

  lemma {:induction false} TrimmedStart(chars: seq<seq<Byte>>, text: seq<Byte>)
    requires AllSpaces(chars) && text != [] && Visible(text[0])
    ensures TrimStart(Concat(chars) + text) == text
    decreases |chars|
  {
    hide IsSpace, Visible, TrimStart, Concat;
    if chars == [] {
      StartStops(text);
      assert Concat<Byte>([]) + text == text by {
        NoLists<Byte>();
      }
    } else {
      ConcatHead(chars);
      StartStep(chars[0], Concat(chars[1..]) + text);
      TrimmedStart(chars[1..], text);
      assert Concat(chars) + text == chars[0] + (Concat(chars[1..]) + text);
    }
  }

  lemma NoLists<T>()
    ensures Concat<T>([]) == []
  {
  }

  lemma {:induction false} TrimmedEnd(text: seq<Byte>, chars: seq<seq<Byte>>)
    requires AllSpaces(chars) && text != [] && Visible(text[|text| - 1])
    ensures TrimEnd(text + Concat(chars)) == text
    decreases |chars|
  {
    hide IsSpace, Visible, TrimEnd;
    if chars == [] {
      EndStops(text);
      assert text + Concat(chars) == text;
    } else {
      var n := |chars| - 1;
      EndStep(text + Concat(chars[..n]), chars[n]);
      TrimmedEnd(text, chars[..n]);
      assert text + Concat(chars) == text + Concat(chars[..n]) + chars[n];
    }
  }

  /** Exactly the white space around a text of visible ends is trimmed. */
  lemma Trimmed(before: seq<Byte>, text: seq<Byte>, after: seq<Byte>)
    requires Blank(before) && Blank(after) && text != [] && Visible(text[0]) && Visible(text[|text| - 1])
    ensures Trim(before + text + after) == text
  {
    hide Visible, Concat, TrimStart, TrimEnd, AllSpaces;
    var heads: seq<seq<Byte>> :| AllSpaces(heads) && before == Concat(heads);
    var tails: seq<seq<Byte>> :| AllSpaces(tails) && after == Concat(tails);
    TrimmedStart(heads, text + after);
    TrimmedEnd(text, tails);
    assert before + text + after == before + (text + after);
  }
}
