/** Text rules as expressions and as loops. */
module Identifiers {
  /*
   The text rules that the browser states as regular expressions and the host as loops over bytes.
   Strings are their UTF-8 bytes; whether a string is in Unicode normalization form C is a parameter.
  */

  import opened Options
  import opened Bytes
  import opened Alphabets
  import opened Regex

  type Text = seq<Byte>
  type Normal = Text -> bool

  const HYPHEN: Byte := 45
  const PERIOD: Byte := 46
  const AT: Byte := 64
  const SLASH: Byte := 47

  predicate IsLower(b: Byte) {
    97 <= b <= 122
  }

  predicate IsDigit(b: Byte) {
    48 <= b <= 57
  }

  predicate IsLowerOrDigit(b: Byte) {
    97 <= b <= 122 || 48 <= b <= 57
  }

  predicate IsLowerHex(b: Byte) {
    48 <= b <= 57 || 97 <= b <= 102
  }

  predicate IsUpperHex(b: Byte) {
    48 <= b <= 57 || 65 <= b <= 70
  }

  predicate IsHyphen(b: Byte) {
    b == 45
  }

  predicate IsSeparator(b: Byte) {
    b == 45 || b == 46
  }

  predicate IsPackageChar(b: Byte) {
    97 <= b <= 122 || 48 <= b <= 57 || b == 46 || b == 95 || b == 45
  }

  predicate IsSuffixChar(b: Byte) {
    48 <= b <= 57 || 65 <= b <= 90 || 97 <= b <= 122 || b == 46 || b == 45
  }

  /** The classes of the expressions, by the letters and digits in them. */
  lemma ClassesExactly(b: Byte)
    ensures IsLower(b) <==> b in LOWERS
    ensures IsDigit(b) <==> b in DIGITS
    ensures IsLowerOrDigit(b) <==> b in LOWERS || b in DIGITS
    ensures IsLowerHex(b) <==> b in DIGITS || b in LOWERS[..6]
    ensures IsUpperHex(b) <==> b in DIGITS || b in UPPERS[..6]
    ensures IsSeparator(b) <==> b in Ascii("-.")
    ensures IsPackageChar(b) <==> b in LOWERS || b in DIGITS || b in Ascii("._-")
    ensures IsSuffixChar(b) <==> b in LOWERS || b in UPPERS || b in DIGITS || b in Ascii(".-")
  {
    LettersAndDigits(b);
    LowersAre(0);
    UppersAre(0);
    assert Ascii("._-") == [46, 95, 45] && Ascii(".-") == [46, 45] && Ascii("-.") == [45, 46];
    hide LOWERS, UPPERS, DIGITS;
  }

  // ------------------------------------------------------------ text

  /** The browser's rule: no control characters, but for the line feed when the text may have several lines. */
  predicate BrowserText(s: Text, maximum: nat, multiline: bool, normal: Normal) {
    && 1 <= |s| <= maximum
    && normal(s)
    && !exists b :: b in s && (if multiline then b <= 9 || 11 <= b <= 31 || b == 127 else b <= 31 || b == 127)
  }

  predicate SafeText(s: Text, maximum: nat, multiline: bool, normal: Normal) {
    && s != []
    && |s| <= maximum
    && normal(s)
    && forall b | b in s :: !((b <= 31 && !(multiline && b == 10)) || b == 127)
  }

  lemma TextsAgree(s: Text, maximum: nat, multiline: bool, normal: Normal)
    ensures BrowserText(s, maximum, multiline, normal) <==> SafeText(s, maximum, multiline, normal)
  {
  }

  // ------------------------------------------------------------ digests

  function DigestRegex(): Regex {
    After(Ascii("sha256:"), Repeat(Class(IsLowerHex), 64))
  }

  predicate ValidDigest(s: Text) {
    && |s| == 71
    && Ascii("sha256:") <= s
    && forall b | b in s[7..] :: (48 <= b <= 57 || 65 <= b <= 70 || 97 <= b <= 102) && !(65 <= b <= 90)
  }

  lemma DigestsAgree(s: Text)
    ensures ValidDigest(s) <==> Matches(DigestRegex(), s)
  {
    MatchesAfter(Ascii("sha256:"), Repeat(Class(IsLowerHex), 64), s);
    if |s| >= 7 {
      RepeatClass(IsLowerHex, 64, s[7..]);
    }
  }

  // ------------------------------------------------------------ public identifiers

  /** One separator and the letters and digits after it, any number of times. */
  function Groups(separator: Byte -> bool): Regex {
    Star(Then(Class(separator), Plus(Class(IsLowerOrDigit))))
  }

  /** Letters and digits, then groups. */
  function Tail(separator: Byte -> bool): Regex {
    Then(Star(Class(IsLowerOrDigit)), Groups(separator))
  }

  function IdRegex(): Regex {
    Then(Class(IsLower), Tail(IsSeparator))
  }

  /** What may be left to read; right after a separator, a letter or digit must follow. */
  predicate Accepts(s: Text, afterSeparator: bool, separator: Byte -> bool) {
    if s == [] then !afterSeparator
    else if IsLowerOrDigit(s[0]) then Accepts(s[1..], false, separator)
    else separator(s[0]) && !afterSeparator && Accepts(s[1..], true, separator)
  }

  lemma GroupsMatch(separator: Byte -> bool, s: Text)
    requires s != []
    ensures Matches(Groups(separator), s) <==>
      separator(s[0]) && Matches(Then(Plus(Class(IsLowerOrDigit)), Groups(separator)), s[1..])
  {
    hide Matches;
    var word := Plus(Class(IsLowerOrDigit));
    var group := Then(Class(separator), word);
    if Matches(Groups(separator), s) {
      var x, y := SplitStar(group, s);
      ClassThen(separator, word, x);
      MatchThen(word, Groups(separator), x[1..], y);
      assert x[1..] + y == s[1..];
    }
    if separator(s[0]) && Matches(Then(word, Groups(separator)), s[1..]) {
      var x, y := SplitThen(word, Groups(separator), s[1..]);
      ClassThen(separator, word, [s[0]] + x);
      assert ([s[0]] + x)[1..] == x && s == [s[0]] + x + y;
      MatchStar(group, [s[0]] + x, y);
    }
  }

  /** What the rest of the expression matches, one byte on. */
  lemma TailSteps(separator: Byte -> bool, s: Text)
    requires s != [] && Matches(Tail(separator), s) && forall b :: separator(b) ==> !IsLowerOrDigit(b)
    ensures if IsLowerOrDigit(s[0]) then Matches(Tail(separator), s[1..]) else Matches(Groups(separator), s)
  {
    hide Matches, Groups;
    var word, groups := Star(Class(IsLowerOrDigit)), Groups(separator);
    var x, y := SplitThen(word, groups, s);
    StarClass(IsLowerOrDigit, x);
    if x == [] {
      assert y == s;
      GroupsMatch(separator, s);
    } else {
      assert x == [x[0]] + x[1..] && s[1..] == x[1..] + y;
      StarClass(IsLowerOrDigit, x[1..]);
      MatchThen(word, groups, x[1..], y);
    }
  }

  lemma TailExtends(separator: Byte -> bool, s: Text)
    requires s != [] && IsLowerOrDigit(s[0]) && Matches(Tail(separator), s[1..])
    ensures Matches(Tail(separator), s)
  {
    hide Matches, Groups;
    var word, groups := Star(Class(IsLowerOrDigit)), Groups(separator);
    var x, y := SplitThen(word, groups, s[1..]);
    StarClass(IsLowerOrDigit, x);
    StarClass(IsLowerOrDigit, [s[0]] + x);
    MatchThen(word, groups, [s[0]] + x, y);
    assert s == [s[0]] + x + y;
  }

  lemma TailOfGroups(separator: Byte -> bool, s: Text)
    requires Matches(Groups(separator), s)
    ensures Matches(Tail(separator), s)
  {
    hide Matches, Groups;
    StarClass(IsLowerOrDigit, []);
    MatchThen(Star(Class(IsLowerOrDigit)), Groups(separator), [], s);
    assert [] + s == s;
  }

  lemma TailMatches(separator: Byte -> bool, s: Text)
    requires s != [] && forall b :: separator(b) ==> !IsLowerOrDigit(b)
    ensures Matches(Tail(separator), s) <==>
      if IsLowerOrDigit(s[0]) then Matches(Tail(separator), s[1..]) else Matches(Groups(separator), s)
  {
    hide Matches, Groups, Tail, IsLowerOrDigit;
    if Matches(Tail(separator), s) {
      TailSteps(separator, s);
    }
    if IsLowerOrDigit(s[0]) && Matches(Tail(separator), s[1..]) {
      TailExtends(separator, s);
    }
    if Matches(Groups(separator), s) {
      TailOfGroups(separator, s);
    }
  }

  /** The automaton accepts what the expression matches, from either state. */
  lemma {:induction false} AcceptsExactly(s: Text, afterSeparator: bool, separator: Byte -> bool)
    requires forall b :: separator(b) ==> !IsLowerOrDigit(b)
    ensures Accepts(s, afterSeparator, separator) <==>
      Matches(if afterSeparator then Then(Plus(Class(IsLowerOrDigit)), Groups(separator)) else Tail(separator), s)
    decreases |s|, afterSeparator
  {
    var word := Class(IsLowerOrDigit);
    if afterSeparator {
      ThenIsAssociative(word, Star(word), Groups(separator), s);
      ClassThen(IsLowerOrDigit, Tail(separator), s);
      if s != [] {
        AcceptsExactly(s[1..], false, separator);
      }
    } else if s == [] {
      MatchThen(Star(word), Groups(separator), [], []);
      assert s == [] + [];
    } else {
      TailMatches(separator, s);
      GroupsMatch(separator, s);
      AcceptsExactly(s[1..], false, separator);
      AcceptsExactly(s[1..], true, separator);
    }
  }

  ghost predicate BrowserId(s: Text, normal: Normal) {
    BrowserText(s, 128, false, normal) && Matches(IdRegex(), s)
  }

  predicate IsAscii(s: Text) {
    forall b | b in s :: b < 128
  }

  predicate HostId(s: Text, normal: Normal) {
    && SafeText(s, 128, false, normal)
    && IsAscii(s)
    && s != []
    && IsLower(s[0])
    && Accepts(s[1..], false, IsSeparator)
  }

  lemma {:induction false} AcceptsOnlyAscii(s: Text, afterSeparator: bool)
    requires Accepts(s, afterSeparator, IsSeparator)
    ensures IsAscii(s)
    decreases |s|
  {
    if s != [] {
      AcceptsOnlyAscii(s[1..], !IsLowerOrDigit(s[0]));
      assert s == [s[0]] + s[1..];
    }
  }

  /** The host's automaton and the browser's expression accept the same identifiers. */
  lemma IdsAgree(s: Text, normal: Normal)
    ensures HostId(s, normal) <==> BrowserId(s, normal)
  {
    TextsAgree(s, 128, false, normal);
    ClassThen(IsLower, Tail(IsSeparator), s);
    if s != [] {
      AcceptsExactly(s[1..], false, IsSeparator);
      if IsLower(s[0]) && Accepts(s[1..], false, IsSeparator) {
        AcceptsOnlyAscii(s[1..], false);
        assert s == [s[0]] + s[1..];
      }
    }
  }

  method PublicId(s: Text, normal: Normal) returns (ok: bool)
    ensures ok <==> BrowserId(s, normal)
  {
    IdsAgree(s, normal);
    hide Matches, SafeText;
    if !SafeText(s, 128, false, normal) || !IsAscii(s) || s == [] || !IsLower(s[0]) {
      return false;
    }
    var afterSeparator := false;
    for i := 1 to |s|
      invariant Accepts(s[i..], afterSeparator, IsSeparator) == Accepts(s[1..], false, IsSeparator)
    {
      assert s[i..][1..] == s[i + 1..];
      if IsLowerOrDigit(s[i]) {
        afterSeparator := false;
      } else if (s[i] == HYPHEN || s[i] == PERIOD) && !afterSeparator {
        afterSeparator := true;
      } else {
        return false;
      }
    }
    return !afterSeparator;
  }

  // ------------------------------------------------------------ package identifiers

  function ComponentRegex(): Regex {
    Then(Class(IsLowerOrDigit), Star(Class(IsPackageChar)))
  }

  function PackageRegex(): Regex {
    Or(After([AT], TwoRegex()), ComponentRegex())
  }

  ghost predicate BrowserPackageId(s: Text, normal: Normal) {
    BrowserText(s, 214, false, normal) && Matches(PackageRegex(), s)
  }

  predicate PackageComponent(s: Text) {
    s != [] && IsLowerOrDigit(s[0]) && forall b | b in s :: IsPackageChar(b)
  }

  predicate HostPackageId(s: Text, normal: Normal) {
    && SafeText(s, 214, false, normal)
    && IsAscii(s)
    && if [AT] <= s then AreTwoComponents(Split(s[1..], SLASH)) else PackageComponent(s)
  }

  lemma ComponentMatches(s: Text)
    ensures Matches(ComponentRegex(), s) <==> PackageComponent(s)
  {
    ClassThen(IsLowerOrDigit, Star(Class(IsPackageChar)), s);
    if s != [] {
      StarClass(IsPackageChar, s[1..]);
      assert s == [s[0]] + s[1..];
    }
  }

  function TwoRegex(): Regex {
    Then(ComponentRegex(), After([SLASH], ComponentRegex()))
  }

  predicate AreTwoComponents(parts: seq<Text>) {
    |parts| == 2 && PackageComponent(parts[0]) && PackageComponent(parts[1])
  }

  lemma TwoComponentsOf(s: Text)
    requires Matches(TwoRegex(), s)
    ensures AreTwoComponents(Split(s, SLASH))
  {
    hide Matches;
    var x, y := SplitThen(ComponentRegex(), After([SLASH], ComponentRegex()), s);
    MatchesAfter([SLASH], ComponentRegex(), y);
    ComponentMatches(x);
    ComponentMatches(y[1..]);
    SplitPiece(y[1..], SLASH, []);
    SplitPiece(x, SLASH, y[1..]);
    assert s == x + [SLASH] + y[1..];
  }

  lemma TwoComponentsMatch(s: Text)
    requires AreTwoComponents(Split(s, SLASH))
    ensures Matches(TwoRegex(), s)
  {
    hide Matches, Split, PackageComponent, ComponentRegex;
    var x, rest := FirstPiece(s, SLASH);
    var y, _ := FirstPiece(rest, SLASH);
    ComponentMatches(x);
    ComponentMatches(y);
    assert ([SLASH] + y)[1..] == y;
    MatchesAfter([SLASH], ComponentRegex(), [SLASH] + y);
    MatchThen(ComponentRegex(), After([SLASH], ComponentRegex()), x, [SLASH] + y);
    assert s == x + ([SLASH] + y);
  }

  lemma PackageMatches(s: Text)
    ensures Matches(PackageRegex(), s) <==>
      if [AT] <= s then AreTwoComponents(Split(s[1..], SLASH)) else PackageComponent(s)
  {
    assert Matches(PackageRegex(), s) <==>
      Matches(After([AT], TwoRegex()), s) || Matches(ComponentRegex(), s);
    hide Matches;
    MatchesAfter([AT], TwoRegex(), s);
    ComponentMatches(s);
    if [AT] <= s {
      if Matches(TwoRegex(), s[1..]) {
        TwoComponentsOf(s[1..]);
      }
      if AreTwoComponents(Split(s[1..], SLASH)) {
        TwoComponentsMatch(s[1..]);
      }
    }
  }

  lemma PackagesOnlyAscii(s: Text)
    requires Matches(PackageRegex(), s)
    ensures IsAscii(s)
  {
    PackageMatches(s);
    hide Matches;
    if [AT] <= s {
      var x, rest := FirstPiece(s[1..], SLASH);
      var y, _ := FirstPiece(rest, SLASH);
      assert s == [AT] + x + [SLASH] + y;
    }
  }

  lemma PackageIdsAgree(s: Text, normal: Normal)
    ensures HostPackageId(s, normal) <==> BrowserPackageId(s, normal)
  {
    TextsAgree(s, 214, false, normal);
    PackageMatches(s);
    hide SafeText, BrowserText, Matches;
    if Matches(PackageRegex(), s) {
      PackagesOnlyAscii(s);
    }
  }

  // ------------------------------------------------------------ versions

  function NumberRegex(): Regex {
    Plus(Class(IsDigit))
  }

  function SuffixRegex(): Regex {
    Optional(After([HYPHEN], Plus(Class(IsSuffixChar))))
  }

  function VersionRegex(): Regex {
    Then(NumberRegex(), After([PERIOD], Then(NumberRegex(), After([PERIOD], Then(NumberRegex(), SuffixRegex())))))
  }

  ghost predicate BrowserVersion(s: Text, normal: Normal) {
    BrowserText(s, 64, false, normal) && Matches(VersionRegex(), s)
  }

  /** What is before the first separator, and what is after it if there is one. */
  function SplitOnce(s: Text, separator: Byte): (Text, Option<Text>) {
    if s == [] then (s, None)
    else if s[0] == separator then ([], Some(s[1..]))
    else
      var (before, after) := SplitOnce(s[1..], separator);
      ([s[0]] + before, after)
  }

  predicate IsNumber(s: Text) {
    s != [] && forall b | b in s :: IsDigit(b)
  }

  predicate IsSuffix(s: Text) {
    s != [] && forall b | b in s :: IsSuffixChar(b)
  }

  predicate ThreeNumbers(s: Text) {
    |Split(s, PERIOD)| == 3 && forall part | part in Split(s, PERIOD) :: IsNumber(part)
  }

  predicate HostVersion(s: Text, normal: Normal) {
    var (main, suffix) := SplitOnce(s, HYPHEN);
    && SafeText(s, 64, false, normal)
    && ThreeNumbers(main)
    && (suffix.Some? ==> IsSuffix(suffix.value))
  }

  function Suffixed(main: Text, suffix: Option<Text>): Text {
    if suffix.Some? then main + [HYPHEN] + suffix.value else main
  }

  lemma {:induction false} SplitOnceJoins(s: Text, separator: Byte)
    ensures var (before, after) := SplitOnce(s, separator);
      separator !in before && s == if after.Some? then before + [separator] + after.value else before
  {
    if s != [] {
      SplitOnceJoins(s[1..], separator);
      assert s == [s[0]] + s[1..];
    }
  }

  lemma {:induction false} SplitOnceOf(main: Text, suffix: Option<Text>)
    requires HYPHEN !in main
    ensures SplitOnce(Suffixed(main, suffix), HYPHEN) == (main, suffix)
  {
    var s := Suffixed(main, suffix);
    if main != [] {
      SplitOnceOf(main[1..], suffix);
      assert s[1..] == Suffixed(main[1..], suffix);
      assert main == [main[0]] + main[1..];
    } else if suffix.Some? {
      assert s[1..] == suffix.value;
    }
  }

  lemma SuffixMatches(s: Text)
    ensures Matches(SuffixRegex(), s) <==> s == [] || (s[0] == HYPHEN && IsSuffix(s[1..]))
  {
    MatchesAfter([HYPHEN], Plus(Class(IsSuffixChar)), s);
    if s != [] {
      PlusClass(IsSuffixChar, s[1..]);
    }
  }

  lemma ThreeNumbersOf(a: Text, b: Text, c: Text)
    requires IsNumber(a) && IsNumber(b) && IsNumber(c)
    ensures ThreeNumbers(a + [PERIOD] + (b + [PERIOD] + c)) && HYPHEN !in a + [PERIOD] + (b + [PERIOD] + c)
  {
    SplitPiece(c, PERIOD, []);
    SplitPiece(b, PERIOD, c);
    SplitPiece(a, PERIOD, b + [PERIOD] + c);
  }

  lemma NumbersOf(s: Text) returns (a: Text, b: Text, c: Text)
    requires ThreeNumbers(s)
    ensures IsNumber(a) && IsNumber(b) && IsNumber(c) && s == a + [PERIOD] + (b + [PERIOD] + c)
  {
    var rest, last;
    a, rest := FirstPiece(s, PERIOD);
    b, last := FirstPiece(rest, PERIOD);
    var end;
    c, end := FirstPiece(last, PERIOD);
    var parts := Split(s, PERIOD);
    assert parts[1..][0] == parts[1] && parts[1..][1..][0] == parts[2];
    assert parts[0] in parts && parts[1] in parts && parts[2] in parts;
  }

  lemma NumberThen(r: Regex, a: Text, rest: Text)
    requires IsNumber(a) && Matches(r, rest)
    ensures Matches(Then(NumberRegex(), After([PERIOD], r)), a + [PERIOD] + rest)
    ensures Matches(Then(NumberRegex(), r), a + rest)
  {
    hide Matches;
    PlusClass(IsDigit, a);
    assert ([PERIOD] + rest)[1..] == rest;
    MatchesAfter([PERIOD], r, [PERIOD] + rest);
    MatchThen(NumberRegex(), After([PERIOD], r), a, [PERIOD] + rest);
    MatchThen(NumberRegex(), r, a, rest);
    assert a + [PERIOD] + rest == a + ([PERIOD] + rest);
  }

  lemma ThenNumber(r: Regex, s: Text) returns (a: Text, rest: Text)
    requires Matches(Then(NumberRegex(), After([PERIOD], r)), s)
    ensures IsNumber(a) && Matches(r, rest) && s == a + [PERIOD] + rest
  {
    hide Matches;
    var tail;
    a, tail := SplitThen(NumberRegex(), After([PERIOD], r), s);
    PlusClass(IsDigit, a);
    MatchesAfter([PERIOD], r, tail);
    rest := tail[1..];
  }

  function Last(): Regex {
    Then(NumberRegex(), SuffixRegex())
  }

  lemma VersionFrom(main: Text, suffix: Option<Text>)
    requires ThreeNumbers(main) && (suffix.Some? ==> IsSuffix(suffix.value))
    ensures Matches(VersionRegex(), Suffixed(main, suffix))
  {
    hide Matches, ThreeNumbers;
    var a, b, c := NumbersOf(main);
    hide IsNumber;
    var end := if suffix.Some? then [HYPHEN] + suffix.value else [];
    assert suffix.Some? ==> end[1..] == suffix.value;
    SuffixMatches(end);
    hide IsSuffix, SuffixRegex, NumberRegex;
    NumberThen(SuffixRegex(), c, end);
    NumberThen(Last(), b, c + end);
    NumberThen(Then(NumberRegex(), After([PERIOD], Last())), a, b + [PERIOD] + (c + end));
    assert Suffixed(main, suffix) == a + [PERIOD] + (b + [PERIOD] + (c + end));
  }

  lemma VersionMatches(s: Text)
    ensures Matches(VersionRegex(), s) <==>
      var (main, suffix) := SplitOnce(s, HYPHEN);
      ThreeNumbers(main) && (suffix.Some? ==> IsSuffix(suffix.value))
  {
    var (main, suffix) := SplitOnce(s, HYPHEN);
    SplitOnceJoins(s, HYPHEN);
    hide Matches, SplitOnce, ThreeNumbers, IsSuffix, VersionRegex;
    if Matches(VersionRegex(), s) {
      VersionParts(s);
    }
    if ThreeNumbers(main) && (suffix.Some? ==> IsSuffix(suffix.value)) {
      VersionFrom(main, suffix);
      assert s == Suffixed(main, suffix);
    }
  }

  lemma VersionParts(s: Text)
    requires Matches(VersionRegex(), s)
    ensures var (main, suffix) := SplitOnce(s, HYPHEN);
      ThreeNumbers(main) && (suffix.Some? ==> IsSuffix(suffix.value))
  {
    hide Matches;
    var a, afterA := ThenNumber(Then(NumberRegex(), After([PERIOD], Last())), s);
    var b, afterB := ThenNumber(Last(), afterA);
    var c, end := SplitThen(NumberRegex(), SuffixRegex(), afterB);
    PlusClass(IsDigit, c);
    SuffixMatches(end);
    ThreeNumbersOf(a, b, c);
    hide ThreeNumbers, IsNumber;
    var main := a + [PERIOD] + (b + [PERIOD] + c);
    var suffix := if end == [] then None else Some(end[1..]);
    assert s == Suffixed(main, suffix);
    SplitOnceOf(main, suffix);
  }

  lemma VersionsAgree(s: Text, normal: Normal)
    ensures HostVersion(s, normal) <==> BrowserVersion(s, normal)
  {
    TextsAgree(s, 64, false, normal);
    VersionMatches(s);
    hide Matches, SplitOnce, ThreeNumbers, SafeText, BrowserText, VersionRegex;
  }

  // ------------------------------------------------------------ backgrounds

  function TokenRegex(): Regex {
    After(Ascii("token:"), Then(Class(IsLower), Tail(IsHyphen)))
  }

  function ColorRegex(): Regex {
    After(Ascii("#"), Repeat(Class(IsUpperHex), 8))
  }

  ghost predicate BrowserBackground(s: Text, normal: Normal) {
    && BrowserText(s, 128, false, normal)
    && (s == Ascii("transparent") || Matches(TokenRegex(), s) || Matches(ColorRegex(), s))
  }

  predicate IsWord(s: Text) {
    s != [] && forall b | b in s :: IsLowerOrDigit(b)
  }

  predicate HostToken(s: Text) {
    var parts := Split(s, HYPHEN);
    IsWord(parts[0]) && IsLower(parts[0][0]) && forall i | 0 < i < |parts| :: IsWord(parts[i])
  }

  predicate HostTokenBackground(s: Text) {
    Ascii("token:") <= s && HostToken(s[6..])
  }

  predicate HostColor(s: Text) {
    Ascii("#") <= s && |s[1..]| == 8 && forall b | b in s[1..] :: IsUpperHex(b)
  }

  predicate HostBackground(s: Text) {
    s == Ascii("transparent") || HostColor(s) || HostTokenBackground(s)
  }

  lemma {:induction false} WordsAgree(s: Text, afterSeparator: bool)
    ensures Accepts(s, afterSeparator, IsHyphen) <==>
      var parts := Split(s, HYPHEN);
      && (afterSeparator ==> parts[0] != [])
      && (forall b | b in parts[0] :: IsLowerOrDigit(b))
      && forall i | 0 < i < |parts| :: IsWord(parts[i])
    decreases |s|
  {
    if s != [] {
      var parts, rest := Split(s, HYPHEN), Split(s[1..], HYPHEN);
      if s[0] == HYPHEN {
        WordsAgree(s[1..], true);
        assert parts == [[]] + rest;
        if forall i | 0 < i < |parts| :: IsWord(parts[i]) {
          assert IsWord(parts[1]);
          assert forall i | 0 < i < |rest| :: rest[i] == parts[i + 1];
        }
      } else {
        WordsAgree(s[1..], false);
        assert parts == [[s[0]] + rest[0]] + rest[1..];
        assert forall b :: b in parts[0] <==> b == s[0] || b in rest[0];
        assert |parts| == |rest| && forall i | 0 < i < |rest| :: parts[i] == rest[i];
        hide Split, IsWord;
      }
    }
  }

  lemma TokensAgree(s: Text)
    ensures HostToken(s) <==> Matches(Then(Class(IsLower), Tail(IsHyphen)), s)
  {
    ClassThen(IsLower, Tail(IsHyphen), s);
    WordsAgree(s, true);
    if s != [] {
      AcceptsExactly(s[1..], false, IsHyphen);
    }
  }

  lemma TokenBackgroundsAgree(s: Text)
    ensures HostTokenBackground(s) <==> Matches(TokenRegex(), s)
  {
    MatchesAfter(Ascii("token:"), Then(Class(IsLower), Tail(IsHyphen)), s);
    hide Matches, HostToken, After, Tail;
    if |s| >= 6 {
      TokensAgree(s[6..]);
    }
  }

  lemma ColorsAgree(s: Text)
    ensures HostColor(s) <==> Matches(ColorRegex(), s)
  {
    MatchesAfter(Ascii("#"), Repeat(Class(IsUpperHex), 8), s);
    hide Matches, After, Repeat;
    if |s| >= 1 {
      RepeatClass(IsUpperHex, 8, s[1..]);
    }
  }

  /** Printable ASCII, and some of it. */
  predicate Plain(s: Text) {
    s != [] && forall i | 0 <= i < |s| :: 31 < s[i] < 127
  }

  lemma PlainIsText(s: Text, maximum: nat, normal: Normal)
    requires Plain(s) && forall t: Text | IsAscii(t) :: normal(t)
    ensures BrowserText(s, maximum, false, normal) <==> |s| <= maximum
  {
    assert IsAscii(s);
  }

  lemma TokenBackgroundIsPlain(s: Text)
    requires HostTokenBackground(s)
    ensures Plain(s)
  {
    WordsAgree(s[6..], true);
    AcceptsPlain(s[6..], true);
    hide Split, Accepts, HostToken;
    assert s == Ascii("token:") + s[6..];
    assert forall i | 6 <= i < |s| :: s[i] in s[6..];
  }

  lemma ColorIsPlain(s: Text)
    requires HostColor(s)
    ensures Plain(s)
  {
    assert s == Ascii("#") + s[1..];
    assert forall i | 1 <= i < |s| :: s[i] in s[1..];
  }

  lemma TransparentIsPlain()
    ensures Plain(Ascii("transparent"))
  {
  }

  /** The browser also bounds a background's length; that is the only difference. */
  lemma BackgroundsDifferByLength(s: Text, normal: Normal)
    requires forall t: Text | IsAscii(t) :: normal(t)
    ensures BrowserBackground(s, normal) <==> HostBackground(s) && |s| <= 128
  {
    hide Matches, TokenRegex, ColorRegex, HostTokenBackground, HostColor, BrowserText, Plain, IsAscii;
    TokenBackgroundsAgree(s);
    ColorsAgree(s);
    TransparentIsPlain();
    if HostBackground(s) {
      if HostTokenBackground(s) {
        TokenBackgroundIsPlain(s);
      } else if HostColor(s) {
        ColorIsPlain(s);
      }
      PlainIsText(s, 128, normal);
    }
  }

  lemma {:induction false} AcceptsPlain(s: Text, afterSeparator: bool)
    requires Accepts(s, afterSeparator, IsHyphen)
    ensures forall b | b in s :: 31 < b < 127
    decreases |s|
  {
    if s != [] {
      AcceptsPlain(s[1..], !IsLowerOrDigit(s[0]));
      assert s == [s[0]] + s[1..];
    }
  }

  /** A background that the host takes and the browser does not. */
  lemma LongBackground(normal: Normal) returns (s: Text)
    ensures HostBackground(s) && !BrowserBackground(s, normal)
  {
    var token: Text := seq(123, i => 97);
    s := Ascii("token:") + token;
    assert s[6..] == token;
    SplitPiece(token, HYPHEN, []);
    assert Split(s[6..], HYPHEN) == [token];
  }
}
