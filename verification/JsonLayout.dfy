/** The layout of indented JSON text. */
module JsonLayout {
  /*
   The indented text is the compact text laid out in one pass that knows nothing of values: outside
   strings, a bracket that opens something and a comma end their line, a closing bracket stands on a line
   of its own, a colon is followed by a space, and every line starts with two spaces for each structure
   it is in.
  */

  import opened JsonText
  import opened JsonReader

  function Line(depth: nat): Text {
    [10] + seq(2 * depth, i => 32)
  }

  predicate Opens(u: Unit) {
    u == '[' as int || u == '{' as int
  }

  predicate Closes(u: Unit) {
    u == ']' as int || u == '}' as int
  }

  /** Inside a string nothing changes; `depth` counts the structures that are open. */
  function Indented(text: Text, depth: nat, quoted: bool): Text
    decreases |text|
  {
    if text == [] then []
    else
      var c, rest := text[0], text[1..];
      if quoted && c == '\\' as int && rest != [] then [c, rest[0]] + Indented(rest[1..], depth, true)
      else if quoted then [c] + Indented(rest, depth, c != '"' as int)
      else if c == '"' as int then [c] + Indented(rest, depth, true)
      else if Opens(c) && rest != [] && Closes(rest[0]) then
        [c, rest[0]] + Indented(rest[1..], depth, false)
      else if Opens(c) then [c] + Line(depth + 1) + Indented(rest, depth + 1, false)
      else if Closes(c) && depth > 0 then
        Line(depth - 1) + [c] + Indented(rest, depth - 1, false)
      else if c == ',' as int then [c] + Line(depth) + Indented(rest, depth, false)
      else if c == ':' as int then [c, 32] + Indented(rest, depth, false)
      else [c] + Indented(rest, depth, false)
  }

  // ------------------------------------------------------------ strings, numbers and names

  predicate Plain(u: Unit) {
    u !in [34, 91, 93, 123, 125, 44, 58]
  }

  lemma {:induction false} PlainStays(a: Text, rest: Text, depth: nat)
    requires forall i | 0 <= i < |a| :: Plain(a[i])
    ensures Indented(a + rest, depth, false) == a + Indented(rest, depth, false)
    decreases |a|
  {
    if a == [] {
      assert a + rest == rest;
    } else {
      assert (a + rest)[1..] == a[1..] + rest && (a + rest)[0] == a[0];
      PlainStays(a[1..], rest, depth);
      assert [a[0]] + (a[1..] + Indented(rest, depth, false)) == a + Indented(rest, depth, false);
    }
  }

  lemma {:induction false} QuotedStays(a: Text, rest: Text, depth: nat)
    requires forall i | 0 <= i < |a| :: a[i] != 34 && a[i] != 92
    ensures Indented(a + rest, depth, true) == a + Indented(rest, depth, true)
    decreases |a|
  {
    if a == [] {
      assert a + rest == rest;
    } else {
      assert (a + rest)[1..] == a[1..] + rest && (a + rest)[0] == a[0];
      QuotedStays(a[1..], rest, depth);
      assert [a[0]] + (a[1..] + Indented(rest, depth, true)) == a + Indented(rest, depth, true);
    }
  }

  lemma BackslashStays(x: Unit, tail: Text, depth: nat)
    ensures Indented([92, x] + tail, depth, true) == [92, x] + Indented(tail, depth, true)
  {
    assert ([92, x] + tail)[1..] == [x] + tail && ([x] + tail)[1..] == tail;
  }

  lemma EscapeStays(u: Unit, rest: Text, depth: nat)
    ensures Indented(Escape(u) + rest, depth, true) == Escape(u) + Indented(rest, depth, true)
  {
    EscapeTail(u);
    hide Escape, Indented;
    if Escape(u)[0] == 92 {
      var x, tail := Escape(u)[1], Escape(u)[2..];
      assert Escape(u) == [92, x] + tail;
      assert Escape(u) + rest == [92, x] + (tail + rest);
      BackslashStays(x, tail + rest, depth);
      QuotedStays(tail, rest, depth);
      assert [92, x] + (tail + Indented(rest, depth, true)) == Escape(u) + Indented(rest, depth, true);
    } else {
      QuotedStays(Escape(u), rest, depth);
    }
  }

  lemma EscapeTail(u: Unit)
    ensures Escape(u) != [] && (Escape(u)[0] != 92 ==> Escape(u) == [u] && u != 34 && u != 92)
    ensures Escape(u)[0] == 92 ==>
      |Escape(u)| >= 2 && forall i | 2 <= i < |Escape(u)| :: Escape(u)[i] != 34 && Escape(u)[i] != 92
  {
  }

  lemma {:induction false} CharsStay(s: Text, rest: Text, depth: nat)
    ensures Indented(CharsThen(s, [34] + rest), depth, true) == CharsThen(s, [34] + Indented(rest, depth, false))
    decreases |s|
  {
    if s == [] {
      assert ([34] + rest)[1..] == rest;
    } else if StartsWithPair(s) {
      CharsStay(s[2..], rest, depth);
      QuotedStays([s[0], s[1]], CharsThen(s[2..], [34] + rest), depth);
    } else {
      CharsStay(s[1..], rest, depth);
      EscapeStays(s[0], CharsThen(s[1..], [34] + rest), depth);
    }
  }

  lemma QuoteStays(s: Text, rest: Text, depth: nat)
    ensures Indented(QuoteThen(s, rest), depth, false) == QuoteThen(s, Indented(rest, depth, false))
  {
    CharsStay(s, rest, depth);
    assert QuoteThen(s, rest)[1..] == CharsThen(s, [34] + rest);
  }

  lemma NumberStays(n: int, rest: Text, depth: nat)
    ensures Indented(NumberThen(n, rest), depth, false) == NumberThen(n, Indented(rest, depth, false))
  {
    var m := if n < 0 then -n else n;
    DigitsMean(m);
    var digits := (if n < 0 then [45] else []) + Digits(m);
    forall i | 0 <= i < |digits|
      ensures Plain(digits[i])
    {
      assert digits[i] == 45 || IsDigit(digits[i]);
    }
    PlainStays(digits, rest, depth);
    hide Digits;
    assert NumberThen(n, rest) == digits + rest;
    assert NumberThen(n, Indented(rest, depth, false)) == digits + Indented(rest, depth, false);
  }

  // ------------------------------------------------------------ structures

  lemma LineIsBreak(depth: nat)
    ensures Break(true, depth) == Line(depth) && Break(false, depth) == []
  {
  }

  /** A bracket that opens something ends its line. */
  lemma OpenEndsLine(open: Unit, inner: Text, depth: nat)
    requires open in {91, 123} && inner != [] && inner[0] !in {93, 125}
    ensures Indented([open] + inner, depth, false) == [open] + Line(depth + 1) + Indented(inner, depth + 1, false)
  {
    assert ([open] + inner)[1..] == inner;
  }

  lemma EmptyStays(open: Unit, close: Unit, rest: Text, depth: nat)
    requires open in {91, 123} && close in {93, 125}
    ensures Indented([open, close] + rest, depth, false) == [open, close] + Indented(rest, depth, false)
  {
    assert ([open, close] + rest)[1..] == [close] + rest && ([close] + rest)[1..] == rest;
  }

  lemma CloseStandsAlone(close: Unit, rest: Text, depth: nat)
    requires close in {93, 125}
    ensures Indented([close] + rest, depth + 1, false) == Line(depth) + [close] + Indented(rest, depth, false)
  {
    assert ([close] + rest)[1..] == rest;
  }

  lemma CommaEndsLine(text: Text, depth: nat)
    ensures Indented([44] + text, depth, false) == [44] + Line(depth) + Indented(text, depth, false)
  {
    assert ([44] + text)[1..] == text;
  }

  lemma ColonIsSpaced(text: Text, depth: nat)
    ensures Indented([58] + text, depth, false) == [58, 32] + Indented(text, depth, false)
  {
    assert ([58] + text)[1..] == text;
  }

  lemma FieldIsIndented(f: Field, depth: nat, value: Text)
    ensures Indented(QuoteThen(f.key, Colon(false) + value), depth, false) ==
      QuoteThen(f.key, Colon(true) + Indented(value, depth, false))
  {
    hide QuoteThen, Indented;
    QuoteStays(f.key, Colon(false) + value, depth);
    ColonIsSpaced(value, depth);
  }

  lemma AllItemsText(items: seq<Json>, pretty: bool, depth: nat, rest: Text)
    ensures ItemsThen(items, pretty, depth, rest) ==
      if items == [] then Break(pretty, depth) + [93] + rest
      else
        [44] + Break(pretty, depth + 1) +
        PrintThen(items[0], pretty, depth + 1, ItemsThen(items[1..], pretty, depth, rest))
  {
  }

  lemma AllFieldsText(fields: seq<Field>, pretty: bool, depth: nat, rest: Text)
    ensures FieldsThen(fields, pretty, depth, rest) ==
      if fields == [] then Break(pretty, depth) + [125] + rest
      else
        [44] + Break(pretty, depth + 1) +
        QuoteThen(fields[0].key, Colon(pretty) +
          PrintThen(fields[0].value, pretty, depth + 1, FieldsThen(fields[1..], pretty, depth, rest)))
  {
  }

  lemma {:induction false} ItemsAreIndented(items: seq<Json>, depth: nat, rest: Text)
    ensures Indented(ItemsThen(items, false, depth, rest), depth + 1, false) ==
      ItemsThen(items, true, depth, Indented(rest, depth, false))
    decreases items, 0
  {
    hide *;
    LineIsBreak(depth);
    LineIsBreak(depth + 1);
    AllItemsText(items, false, depth, rest);
    AllItemsText(items, true, depth, Indented(rest, depth, false));
    if items == [] {
      CloseStandsAlone(93, rest, depth);
      assert [] + [93] + rest == [93] + rest;
    } else {
      var after := ItemsThen(items[1..], false, depth, rest);
      var first := PrintThen(items[0], false, depth + 1, after);
      CommaEndsLine(first, depth + 1);
      ValueIsIndented(items[0], depth + 1, after);
      ItemsAreIndented(items[1..], depth, rest);
      assert [44] + [] + first == [44] + first;
    }
  }

  lemma {:induction false} FieldsAreIndented(fields: seq<Field>, depth: nat, rest: Text)
    ensures Indented(FieldsThen(fields, false, depth, rest), depth + 1, false) ==
      FieldsThen(fields, true, depth, Indented(rest, depth, false))
    decreases fields, 0
  {
    hide *;
    LineIsBreak(depth);
    LineIsBreak(depth + 1);
    AllFieldsText(fields, false, depth, rest);
    AllFieldsText(fields, true, depth, Indented(rest, depth, false));
    if fields == [] {
      CloseStandsAlone(125, rest, depth);
      assert [] + [125] + rest == [125] + rest;
    } else {
      var after := FieldsThen(fields[1..], false, depth, rest);
      var value := PrintThen(fields[0].value, false, depth + 1, after);
      var first := QuoteThen(fields[0].key, Colon(false) + value);
      CommaEndsLine(first, depth + 1);
      FieldIsIndented(fields[0], depth + 1, value);
      ValueIsIndented(fields[0].value, depth + 1, after);
      FieldsAreIndented(fields[1..], depth, rest);
      assert [44] + [] + first == [44] + first;
    }
  }

  lemma ScalarIsIndented(v: Json, depth: nat, rest: Text)
    requires !v.Arr? && !v.Obj?
    ensures Indented(PrintThen(v, false, depth, rest), depth, false) ==
      PrintThen(v, true, depth, Indented(rest, depth, false))
  {
    hide Indented, NumberThen, QuoteThen;
    match v
    case Null => PlainStays([110, 117, 108, 108], rest, depth);
    case Bool(b) => PlainStays(if b then [116, 114, 117, 101] else [102, 97, 108, 115, 101], rest, depth);
    case Num(n) => NumberStays(n, rest, depth);
    case Str(s) => QuoteStays(s, rest, depth);
  }

  lemma ArrayText(items: seq<Json>, pretty: bool, depth: nat, rest: Text)
    requires items != []
    ensures PrintThen(Arr(items), pretty, depth, rest) == [91] + Break(pretty, depth + 1) +
      PrintThen(items[0], pretty, depth + 1, ItemsThen(items[1..], pretty, depth, rest))
  {
  }

  lemma ObjectText(fields: seq<Field>, pretty: bool, depth: nat, rest: Text)
    requires fields != []
    ensures PrintThen(Obj(fields), pretty, depth, rest) == [123] + Break(pretty, depth + 1) +
      QuoteThen(fields[0].key, Colon(pretty) +
        PrintThen(fields[0].value, pretty, depth + 1, FieldsThen(fields[1..], pretty, depth, rest)))
  {
  }

  lemma EmptyText(pretty: bool, depth: nat, rest: Text)
    ensures PrintThen(Arr([]), pretty, depth, rest) == [91, 93] + rest
    ensures PrintThen(Obj([]), pretty, depth, rest) == [123, 125] + rest
  {
  }

  lemma {:induction false} ValueIsIndented(v: Json, depth: nat, rest: Text)
    ensures Indented(PrintThen(v, false, depth, rest), depth, false) ==
      PrintThen(v, true, depth, Indented(rest, depth, false))
    decreases v, 1
  {
    hide *;
    var next := Indented(rest, depth, false);
    LineIsBreak(depth + 1);
    EmptyText(false, depth, rest);
    EmptyText(true, depth, next);
    match v
    case Arr(items) =>
      if items == [] {
        EmptyStays(91, 93, rest, depth);
      } else {
        var after := ItemsThen(items[1..], false, depth, rest);
        var first := PrintThen(items[0], false, depth + 1, after);
        ArrayText(items, false, depth, rest);
        ArrayText(items, true, depth, next);
        ValueStarts(items[0], false, depth + 1, after);
        OpenEndsLine(91, first, depth);
        ValueIsIndented(items[0], depth + 1, after);
        ItemsAreIndented(items[1..], depth, rest);
        assert [91] + [] + first == [91] + first;
      }
    case Obj(fields) =>
      if fields == [] {
        EmptyStays(123, 125, rest, depth);
      } else {
        var after := FieldsThen(fields[1..], false, depth, rest);
        var value := PrintThen(fields[0].value, false, depth + 1, after);
        var first := QuoteThen(fields[0].key, Colon(false) + value);
        ObjectText(fields, false, depth, rest);
        ObjectText(fields, true, depth, next);
        ReadQuoted(fields[0].key, Colon(false) + value);
        OpenEndsLine(123, first, depth);
        FieldIsIndented(fields[0], depth + 1, value);
        ValueIsIndented(fields[0].value, depth + 1, after);
        FieldsAreIndented(fields[1..], depth, rest);
        assert [123] + [] + first == [123] + first;
      }
    case _ => ScalarIsIndented(v, depth, rest);
  }

  /** `JSON.stringify(v, null, 2)` is `JSON.stringify(v)` laid out. */
  lemma PrettyIsIndented(v: Json)
    ensures Stringify(v, true) == Indented(Stringify(v, false), 0, false)
  {
    ValueIsIndented(v, 0, []);
    hide PrintThen;
  }
}
