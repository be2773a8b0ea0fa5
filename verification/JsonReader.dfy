/** Reading the text of a JSON value. */
module JsonReader {
  /*
   A reader written from the grammar of RFC 8259 (sections 2 to 7), without reference to the printer:
   insignificant white space, the literal names, decimal integers, strings with their escapes, arrays and
   objects. Reading what is printed gives the value back, so the text means the value.

   Text is UTF-16 code units. A character that is not escaped is one unit or a surrogate pair.
  */

  import opened Options
  import opened JsonText

  // ------------------------------------------------------------ white space and numbers

  predicate IsSpace(u: Unit) {
    u == 32 || u == 9 || u == 10 || u == 13
  }

  function SkipSpace(text: Text): (rest: Text)
    ensures |rest| <= |text| && (rest != [] ==> !IsSpace(rest[0]))
  {
    if text != [] && IsSpace(text[0]) then SkipSpace(text[1..]) else text
  }

  /** The digits at the head of `text`, and what follows them. */
  function TakeDigits(text: Text): (r: (Text, Text))
    ensures |r.0| + |r.1| == |text| && forall i | 0 <= i < |r.0| :: IsDigit(r.0[i])
  {
    if text == [] || !IsDigit(text[0]) then ([], text)
    else
      var (digits, rest) := TakeDigits(text[1..]);
      ([text[0]] + digits, rest)
  }

  function DecimalOf(digits: Text): nat
    requires forall i | 0 <= i < |digits| :: IsDigit(digits[i])
  {
    if digits == [] then 0
    else
      assert IsDigit(digits[|digits| - 1]);
      10 * DecimalOf(digits[..|digits| - 1]) + (digits[|digits| - 1] - 48)
  }

  /** Decimal digits without a leading zero. */
  function ReadNatural(text: Text): (r: Option<(nat, Text)>)
    ensures r.Some? ==> |r.value.1| < |text|
  {
    var (digits, rest) := TakeDigits(text);
    if digits == [] || (|digits| > 1 && digits[0] == 48) then None else Some((DecimalOf(digits), rest))
  }

  function ReadInteger(text: Text): (r: Option<(int, Text)>)
    ensures r.Some? ==> |r.value.1| < |text|
  {
    if text != [] && text[0] == 45 then
      match ReadNatural(text[1..])
      case Some((n, rest)) => Some((-(n as int), rest))
      case None => None
    else
      match ReadNatural(text)
      case Some((n, rest)) => Some((n, rest))
      case None => None
  }

  // ------------------------------------------------------------ strings

  function HexValue(u: Unit): Option<nat> {
    if 48 <= u <= 57 then Some(u - 48)
    else if 97 <= u <= 102 then Some(u - 87)
    else if 65 <= u <= 70 then Some(u - 55)
    else None
  }

  /** The unit that four hexadecimal digits stand for. */
  function ReadHex(text: Text): Option<Unit>
    requires |text| >= 4
  {
    var a, b, c, d := HexValue(text[0]), HexValue(text[1]), HexValue(text[2]), HexValue(text[3]);
    if a.None? || b.None? || c.None? || d.None? then None
    else
      var u := ((a.value * 16 + b.value) * 16 + c.value) * 16 + d.value;
      if u < 0x1_0000 then Some(u) else None
  }

  /** What the letter after a backslash stands for. */
  function ShortEscape(letter: Unit): Option<Unit> {
    if letter == '"' as int then Some(0x22)
    else if letter == '\\' as int then Some(0x5C)
    else if letter == '/' as int then Some(0x2F)
    else if letter == 'b' as int then Some(0x08)
    else if letter == 'f' as int then Some(0x0C)
    else if letter == 'n' as int then Some(0x0A)
    else if letter == 'r' as int then Some(0x0D)
    else if letter == 't' as int then Some(0x09)
    else None
  }

  /** One character of a string, as its units, and what follows it. */
  function ReadChar(text: Text): (r: Option<(Text, Text)>)
    ensures r.Some? ==> |r.value.1| < |text|
  {
    if text == [] || text[0] < 32 || text[0] == 34 then None
    else if text[0] == 92 then
      if |text| >= 2 && ShortEscape(text[1]).Some? then Some(([ShortEscape(text[1]).value], text[2..]))
      else if |text| >= 6 && text[1] == 'u' as int && ReadHex(text[2..6]).Some? then
        Some(([ReadHex(text[2..6]).value], text[6..]))
      else None
    else if IsHigh(text[0]) then
      if |text| >= 2 && IsLow(text[1]) then Some((text[..2], text[2..])) else None
    else if IsLow(text[0]) then None
    else Some((text[..1], text[1..]))
  }

  /** A string up to its closing quote. */
  function ReadString(text: Text): (r: Option<(Text, Text)>)
    ensures r.Some? ==> |r.value.1| < |text|
    decreases |text|
  {
    if text == [] then None
    else if text[0] == 34 then Some(([], text[1..]))
    else
      match ReadChar(text)
      case None => None
      case Some((units, rest)) =>
        match ReadString(rest)
        case None => None
        case Some((more, end)) => Some((units + more, end))
  }

  // ------------------------------------------------------------ values

  function ReadLiteral(text: Text): (r: Option<(Json, Text)>)
    ensures r.Some? ==> |r.value.1| < |text|
  {
    if |text| >= 4 && text[..4] == ['n' as int, 'u' as int, 'l' as int, 'l' as int] then
      Some((Null, text[4..]))
    else if |text| >= 4 && text[..4] == ['t' as int, 'r' as int, 'u' as int, 'e' as int] then
      Some((Bool(true), text[4..]))
    else if |text| >= 5 && text[..5] == ['f' as int, 'a' as int, 'l' as int, 's' as int, 'e' as int] then
      Some((Bool(false), text[5..]))
    else None
  }

  /** A value, after any white space, and what follows it. */
  function ReadValue(text: Text): (r: Option<(Json, Text)>)
    ensures r.Some? ==> |r.value.1| < |text|
    decreases |text|, 1
  {
    var t := SkipSpace(text);
    if t == [] then None
    else if t[0] == '"' as int then
      match ReadString(t[1..])
      case Some((s, rest)) => Some((Str(s), rest))
      case None => None
    else if t[0] == '[' as int then
      var inner := SkipSpace(t[1..]);
      if inner != [] && inner[0] == ']' as int then Some((Arr([]), inner[1..])) else ReadItems(t[1..], [])
    else if t[0] == '{' as int then
      var inner := SkipSpace(t[1..]);
      if inner != [] && inner[0] == '}' as int then Some((Obj([]), inner[1..])) else ReadFields(t[1..], [])
    else if t[0] == '-' as int || IsDigit(t[0]) then
      match ReadInteger(t)
      case Some((n, rest)) => Some((Num(n), rest))
      case None => None
    else ReadLiteral(t)
  }

  /** Items separated by commas, up to the closing bracket. */
  function ReadItems(text: Text, done: seq<Json>): (r: Option<(Json, Text)>)
    ensures r.Some? ==> |r.value.1| < |text|
    decreases |text|, 2
  {
    match ReadValue(text)
    case None => None
    case Some((v, rest)) =>
      var t := SkipSpace(rest);
      if t == [] then None
      else if t[0] == ',' as int then ReadItems(t[1..], done + [v])
      else if t[0] == ']' as int then Some((Arr(done + [v]), t[1..]))
      else None
  }

  /** A string, a colon and a value. */
  function ReadField(text: Text): (r: Option<(Field, Text)>)
    ensures r.Some? ==> |r.value.1| < |text|
    decreases |text|, 2
  {
    var t := SkipSpace(text);
    if t == [] || t[0] != '"' as int then None
    else
      match ReadString(t[1..])
      case None => None
      case Some((key, rest)) =>
        var colon := SkipSpace(rest);
        if colon == [] || colon[0] != ':' as int then None
        else
          match ReadValue(colon[1..])
          case None => None
          case Some((v, end)) => Some((Field(key, v), end))
  }

  function ReadFields(text: Text, done: seq<Field>): (r: Option<(Json, Text)>)
    ensures r.Some? ==> |r.value.1| < |text|
    decreases |text|, 3
  {
    match ReadField(text)
    case None => None
    case Some((f, rest)) =>
      var t := SkipSpace(rest);
      if t == [] then None
      else if t[0] == ',' as int then ReadFields(t[1..], done + [f])
      else if t[0] == '}' as int then Some((Obj(done + [f]), t[1..]))
      else None
  }

  /** A whole text: one value, and white space around it. */
  function Read(text: Text): Option<Json> {
    match ReadValue(text)
    case Some((v, rest)) => if SkipSpace(rest) == [] then Some(v) else None
    case None => None
  }

  // ------------------------------------------------------------ reading what is printed

  lemma {:induction false} DigitsAreTaken(digits: Text, rest: Text)
    requires (forall i | 0 <= i < |digits| :: IsDigit(digits[i])) && (rest != [] ==> !IsDigit(rest[0]))
    ensures TakeDigits(digits + rest) == (digits, rest)
    decreases |digits|
  {
    if digits == [] {
      assert digits + rest == rest;
    } else {
      assert (digits + rest)[1..] == digits[1..] + rest && (digits + rest)[0] == digits[0];
      DigitsAreTaken(digits[1..], rest);
      assert [digits[0]] + digits[1..] == digits;
    }
  }

  lemma {:induction false} DigitsMean(n: nat)
    ensures forall i | 0 <= i < |Digits(n)| :: IsDigit(Digits(n)[i])
    ensures DecimalOf(Digits(n)) == n && (Digits(n)[0] == 48 ==> n == 0) && (n < 10 ==> |Digits(n)| == 1)
  {
    if n >= 10 {
      DigitsMean(n / 10);
      var front := Digits(n / 10);
      assert Digits(n)[..|front|] == front && Digits(n)[0] == front[0];
    } else {
      assert Digits(n)[..0] == [];
    }
  }

  lemma ReadDigits(n: nat, rest: Text)
    requires Stops(rest)
    ensures ReadNatural(Digits(n) + rest) == Some((n, rest))
  {
    DigitsMean(n);
    hide Digits, DecimalOf;
    DigitsAreTaken(Digits(n), rest);
  }

  lemma ReadNumber(n: int, rest: Text)
    requires Stops(rest)
    ensures ReadInteger(NumberThen(n, rest)) == Some((n, rest))
  {
    var m := if n < 0 then -n else n;
    ReadDigits(m, rest);
    NumberStarts(n, rest);
    hide Digits, ReadNatural;
    if n < 0 {
      assert NumberThen(n, rest) == [45] + (Digits(m) + rest);
      assert NumberThen(n, rest)[1..] == Digits(m) + rest;
    }
  }

  lemma NumberStarts(n: int, rest: Text)
    ensures NumberThen(n, rest) != []
    ensures if n < 0 then NumberThen(n, rest)[0] == 45 else IsDigit(NumberThen(n, rest)[0])
  {
    DigitsMean(if n < 0 then -n else n);
  }

  lemma HexRoundTrip(d: nat)
    requires d < 16
    ensures HexValue(HexDigit(d)) == Some(d)
  {
  }

  lemma HexOfEscape(u: Unit)
    ensures ReadHex(UnicodeEscape(u)[2..6]) == Some(u)
  {
    HexRoundTrip(u / 0x1000);
    HexRoundTrip(u / 0x100 % 16);
    HexRoundTrip(u / 16 % 16);
    HexRoundTrip(u % 16);
    hide HexDigit, HexValue;
    FourDigits(u);
  }

  lemma FourDigits(u: Unit)
    ensures ((u / 0x1000 * 16 + u / 0x100 % 16) * 16 + u / 16 % 16) * 16 + u % 16 == u
  {
    assert u / 0x100 / 16 == u / 0x1000 && u / 16 / 16 == u / 0x100;
  }

  lemma ReadEscape(u: Unit, rest: Text)
    ensures ReadChar(Escape(u) + rest) == Some(([u], rest)) && Escape(u) != [] && Escape(u)[0] != 34
  {
    var text := Escape(u) + rest;
    if Escape(u) == UnicodeEscape(u) {
      HexOfEscape(u);
      assert text[2..6] == UnicodeEscape(u)[2..6] && text[6..] == rest;
      assert text[0] == 92 && text[1] == 117;
      hide HexDigit, ReadHex;
    } else if Escape(u) == [u] {
      assert text[..1] == [u] && text[1..] == rest;
    } else {
      assert |Escape(u)| == 2 && text[2..] == rest;
    }
  }

  lemma ReadPair(s: Text, rest: Text)
    requires StartsWithPair(s)
    ensures ReadChar([s[0], s[1]] + rest) == Some(([s[0], s[1]], rest))
  {
    var text := [s[0], s[1]] + rest;
    assert text[..2] == [s[0], s[1]] && text[2..] == rest;
  }

  lemma StringStep(units: Text, text: Text, rest: Text)
    requires text != [] && text[0] != 34 && ReadChar(text) == Some((units, rest))
    ensures ReadString(text) ==
      match ReadString(rest) { case Some((more, end)) => Some((units + more, end)) case None => None }
  {
    hide ReadChar;
  }

  lemma {:induction false} ReadChars(s: Text, rest: Text)
    ensures ReadString(CharsThen(s, [34] + rest)) == Some((s, rest))
    decreases |s|
  {
    var tail := [34] + rest;
    if s == [] {
      assert tail[1..] == rest;
    } else if StartsWithPair(s) {
      ReadPair(s, CharsThen(s[2..], tail));
      StringStep([s[0], s[1]], CharsThen(s, tail), CharsThen(s[2..], tail));
      ReadChars(s[2..], rest);
      hide CharsThen, ReadString, ReadChar;
      assert [s[0], s[1]] + s[2..] == s;
    } else {
      ReadEscape(s[0], CharsThen(s[1..], tail));
      hide Escape, ReadChar;
      StringStep([s[0]], CharsThen(s, tail), CharsThen(s[1..], tail));
      ReadChars(s[1..], rest);
      hide CharsThen, ReadString;
      assert [s[0]] + s[1..] == s;
    }
  }

  lemma ReadQuoted(s: Text, rest: Text)
    ensures QuoteThen(s, rest) != [] && QuoteThen(s, rest)[0] == 34
    ensures ReadString(QuoteThen(s, rest)[1..]) == Some((s, rest))
  {
    ReadChars(s, rest);
    assert QuoteThen(s, rest)[1..] == CharsThen(s, [34] + rest);
  }

  // ------------------------------------------------------------ reading values

  lemma {:induction false} SpacesSkipped(count: nat, rest: Text)
    ensures SkipSpace(seq(count, i requires 0 <= i < count => 32) + rest) == SkipSpace(rest)
    decreases count
  {
    var spaces: Text := seq(count, i requires 0 <= i < count => 32);
    if count == 0 {
      assert spaces + rest == rest;
    } else {
      var fewer: Text := seq(count - 1, i requires 0 <= i < count - 1 => 32);
      assert (spaces + rest)[1..] == fewer + rest && (spaces + rest)[0] == 32;
      SpacesSkipped(count - 1, rest);
    }
  }

  lemma BreakSkipped(pretty: bool, depth: nat, rest: Text)
    ensures SkipSpace(Break(pretty, depth) + rest) == SkipSpace(rest)
  {
    if pretty {
      var spaces: Text := seq(2 * depth, i requires 0 <= i < 2 * depth => 32);
      assert (Break(pretty, depth) + rest)[1..] == spaces + rest && (Break(pretty, depth) + rest)[0] == 10;
      SpacesSkipped(2 * depth, rest);
    } else {
      assert Break(pretty, depth) + rest == rest;
    }
  }

  /** The first unit of a value's text is no white space and closes nothing. */
  lemma ValueStarts(v: Json, pretty: bool, depth: nat, rest: Text)
    ensures
      var text := PrintThen(v, pretty, depth, rest);
      text != [] && !IsSpace(text[0]) && text[0] != 93 && text[0] != 125 && SkipSpace(text) == text
  {
    hide ItemsThen, FieldsThen, CharsThen, Break, Colon, Digits;
    if v.Num? {
      NumberStarts(v.n, rest);
    }
  }

  lemma SpaceAgain(text: Text, other: Text)
    requires SkipSpace(text) == SkipSpace(other)
    ensures ReadValue(text) == ReadValue(other)
  {
    hide ReadString, ReadItems, ReadFields, ReadInteger, ReadLiteral;
  }

  /** What stands between the opening bracket and the end of a list that is not empty. */
  function ItemsText(items: seq<Json>, pretty: bool, depth: nat, rest: Text): Text
    requires items != []
  {
    Break(pretty, depth + 1) + PrintThen(items[0], pretty, depth + 1, ItemsThen(items[1..], pretty, depth, rest))
  }

  function FieldsText(fields: seq<Field>, pretty: bool, depth: nat, rest: Text): Text
    requires fields != []
  {
    Break(pretty, depth + 1) + FieldText(fields[0], pretty, depth, FieldsThen(fields[1..], pretty, depth, rest))
  }

  function FieldText(f: Field, pretty: bool, depth: nat, rest: Text): Text {
    QuoteThen(f.key, Colon(pretty) + PrintThen(f.value, pretty, depth + 1, rest))
  }

  lemma Closing(pretty: bool, depth: nat, close: Unit, rest: Text)
    requires close in {93, 125}
    ensures
      var text := Break(pretty, depth) + [close] + rest;
      && SkipSpace(text) == [close] + rest && ([close] + rest)[1..] == rest && Stops(text)
  {
    assert Break(pretty, depth) + [close] + rest == Break(pretty, depth) + ([close] + rest);
    assert pretty ==> Break(pretty, depth)[0] == 10;
    assert !pretty ==> Break(pretty, depth) == [];
    hide Break;
    BreakSkipped(pretty, depth, [close] + rest);
  }

  lemma Comma(text: Text)
    ensures SkipSpace([44] + text) == [44] + text && ([44] + text)[1..] == text && Stops([44] + text)
  {
  }

  lemma MoreItems(items: seq<Json>, pretty: bool, depth: nat, rest: Text)
    requires items != []
    ensures ItemsThen(items, pretty, depth, rest) == [44] + ItemsText(items, pretty, depth, rest)
  {
    hide PrintThen, Break;
  }

  lemma NoMoreItems(pretty: bool, depth: nat, rest: Text)
    ensures ItemsThen([], pretty, depth, rest) == Break(pretty, depth) + [93] + rest
  {
  }

  lemma MoreFields(fields: seq<Field>, pretty: bool, depth: nat, rest: Text)
    requires fields != []
    ensures FieldsThen(fields, pretty, depth, rest) == [44] + FieldsText(fields, pretty, depth, rest)
  {
    hide PrintThen, Break, QuoteThen;
  }

  lemma NoMoreFields(pretty: bool, depth: nat, rest: Text)
    ensures FieldsThen([], pretty, depth, rest) == Break(pretty, depth) + [125] + rest
  {
  }

  /** After an item comes a comma or the closing bracket, and white space at most before it. */
  lemma AfterItem(items: seq<Json>, pretty: bool, depth: nat, rest: Text)
    ensures Stops(ItemsThen(items, pretty, depth, rest))
    ensures
      var t := SkipSpace(ItemsThen(items, pretty, depth, rest));
      && t != [] && t[0] == (if items == [] then 93 else 44)
      && t[1..] == if items == [] then rest else ItemsText(items, pretty, depth, rest)
  {
    hide *;
    if items == [] {
      NoMoreItems(pretty, depth, rest);
      Closing(pretty, depth, 93, rest);
    } else {
      MoreItems(items, pretty, depth, rest);
      Comma(ItemsText(items, pretty, depth, rest));
    }
  }

  lemma AfterField(fields: seq<Field>, pretty: bool, depth: nat, rest: Text)
    ensures Stops(FieldsThen(fields, pretty, depth, rest))
    ensures
      var t := SkipSpace(FieldsThen(fields, pretty, depth, rest));
      && t != [] && t[0] == (if fields == [] then 125 else 44)
      && t[1..] == if fields == [] then rest else FieldsText(fields, pretty, depth, rest)
  {
    hide *;
    if fields == [] {
      NoMoreFields(pretty, depth, rest);
      Closing(pretty, depth, 125, rest);
    } else {
      MoreFields(fields, pretty, depth, rest);
      Comma(FieldsText(fields, pretty, depth, rest));
    }
  }

  lemma ReadItemsStep(text: Text, done: seq<Json>, v: Json, rest: Text)
    requires ReadValue(text) == Some((v, rest))
    ensures
      var t := SkipSpace(rest);
      && (t != [] && t[0] == 44 ==> ReadItems(text, done) == ReadItems(t[1..], done + [v]))
      && (t != [] && t[0] == 93 ==> ReadItems(text, done) == Some((Arr(done + [v]), t[1..])))
  {
    hide ReadValue;
  }

  lemma ReadFieldsStep(text: Text, done: seq<Field>, f: Field, rest: Text)
    requires ReadField(text) == Some((f, rest))
    ensures
      var t := SkipSpace(rest);
      && (t != [] && t[0] == 44 ==> ReadFields(text, done) == ReadFields(t[1..], done + [f]))
      && (t != [] && t[0] == 125 ==> ReadFields(text, done) == Some((Obj(done + [f]), t[1..])))
  {
    hide ReadField;
  }

  lemma ItemsTextAgain(items: seq<Json>, pretty: bool, depth: nat, rest: Text)
    requires items != []
    ensures SkipSpace(ItemsText(items, pretty, depth, rest)) ==
      SkipSpace(PrintThen(items[0], pretty, depth + 1, ItemsThen(items[1..], pretty, depth, rest)))
  {
    hide PrintThen, ItemsThen, Break;
    BreakSkipped(pretty, depth + 1, PrintThen(items[0], pretty, depth + 1, ItemsThen(items[1..], pretty, depth, rest)));
  }

  lemma {:induction false} ItemsAreRead(items: seq<Json>, pretty: bool, depth: nat, rest: Text, done: seq<Json>)
    requires items != []
    ensures ReadItems(ItemsText(items, pretty, depth, rest), done) == Some((Arr(done + items), rest))
    decreases items, 0
  {
    hide *;
    var text, after := ItemsText(items, pretty, depth, rest), ItemsThen(items[1..], pretty, depth, rest);
    ItemsTextAgain(items, pretty, depth, rest);
    SpaceAgain(text, PrintThen(items[0], pretty, depth + 1, after));
    AfterItem(items[1..], pretty, depth, rest);
    ValueIsRead(items[0], pretty, depth + 1, after);
    ReadItemsStep(text, done, items[0], after);
    if |items| > 1 {
      ItemsAreRead(items[1..], pretty, depth, rest, done + [items[0]]);
      assert done + [items[0]] + items[1..] == done + items;
    } else {
      assert done + [items[0]] == done + items;
    }
  }

  lemma FieldStarts(key: Text, pretty: bool, v: Json, depth: nat, rest: Text)
    ensures
      var text := FieldText(Field(key, v), pretty, depth, rest);
      && SkipSpace(text) == text && text != [] && text[0] == 34
      && ReadString(text[1..]) == Some((key, Colon(pretty) + PrintThen(v, pretty, depth + 1, rest)))
  {
    hide PrintThen, Colon, CharsThen, ReadString;
    ReadQuoted(key, Colon(pretty) + PrintThen(v, pretty, depth + 1, rest));
  }

  lemma ColonIsRead(pretty: bool, text: Text)
    ensures
      var t := SkipSpace(Colon(pretty) + text);
      t != [] && t[0] == 58 && SkipSpace(t[1..]) == SkipSpace(text)
  {
    var all := Colon(pretty) + text;
    if pretty {
      assert all[1..] == [32] + text && ([32] + text)[1..] == text;
    } else {
      assert all[1..] == text;
    }
  }

  lemma ReadFieldStep(text: Text, key: Text, rest: Text, v: Json, end: Text)
    requires SkipSpace(text) == text && text != [] && text[0] == 34 && ReadString(text[1..]) == Some((key, rest))
    requires SkipSpace(rest) != [] && SkipSpace(rest)[0] == 58 && ReadValue(SkipSpace(rest)[1..]) == Some((v, end))
    ensures ReadField(text) == Some((Field(key, v), end))
  {
    hide ReadValue, ReadString;
  }

  lemma {:induction false} FieldIsRead(f: Field, pretty: bool, depth: nat, rest: Text)
    requires Stops(rest)
    ensures ReadField(FieldText(f, pretty, depth, rest)) == Some((f, rest))
    decreases f, 2
  {
    hide PrintThen, ReadValue, ReadField, FieldText, Colon, SkipSpace, ReadString;
    var value := PrintThen(f.value, pretty, depth + 1, rest);
    FieldStarts(f.key, pretty, f.value, depth, rest);
    ColonIsRead(pretty, value);
    SpaceAgain(SkipSpace(Colon(pretty) + value)[1..], value);
    ValueIsRead(f.value, pretty, depth + 1, rest);
    ReadFieldStep(FieldText(f, pretty, depth, rest), f.key, Colon(pretty) + value, f.value, rest);
  }

  lemma FieldAgain(text: Text, other: Text)
    requires SkipSpace(text) == SkipSpace(other)
    ensures ReadField(text) == ReadField(other)
  {
    hide ReadString, ReadValue;
  }

  lemma FieldsTextAgain(fields: seq<Field>, pretty: bool, depth: nat, rest: Text)
    requires fields != []
    ensures SkipSpace(FieldsText(fields, pretty, depth, rest)) ==
      SkipSpace(FieldText(fields[0], pretty, depth, FieldsThen(fields[1..], pretty, depth, rest)))
  {
    hide FieldText, FieldsThen, Break;
    BreakSkipped(pretty, depth + 1, FieldText(fields[0], pretty, depth, FieldsThen(fields[1..], pretty, depth, rest)));
  }

  lemma {:induction false} FieldsAreRead(fields: seq<Field>, pretty: bool, depth: nat, rest: Text, done: seq<Field>)
    requires fields != []
    ensures ReadFields(FieldsText(fields, pretty, depth, rest), done) == Some((Obj(done + fields), rest))
    decreases fields, 0
  {
    hide *;
    var text, after := FieldsText(fields, pretty, depth, rest), FieldsThen(fields[1..], pretty, depth, rest);
    FieldsTextAgain(fields, pretty, depth, rest);
    FieldAgain(text, FieldText(fields[0], pretty, depth, after));
    AfterField(fields[1..], pretty, depth, rest);
    FieldIsRead(fields[0], pretty, depth, after);
    ReadFieldsStep(text, done, fields[0], after);
    if |fields| > 1 {
      FieldsAreRead(fields[1..], pretty, depth, rest, done + [fields[0]]);
      assert done + [fields[0]] + fields[1..] == done + fields;
    } else {
      assert done + [fields[0]] == done + fields;
    }
  }

  lemma {:induction false} ValueIsRead(v: Json, pretty: bool, depth: nat, rest: Text)
    requires Stops(rest)
    ensures ReadValue(PrintThen(v, pretty, depth, rest)) == Some((v, rest))
    decreases v, 1
  {
    ValueStarts(v, pretty, depth, rest);
    match v
    case Null => LiteralIsRead(v, pretty, depth, rest);
    case Bool(b) => LiteralIsRead(v, pretty, depth, rest);
    case Num(n) => NumberIsRead(n, pretty, depth, rest);
    case Str(s) => StringIsRead(s, pretty, depth, rest);
    case Arr(items) =>
      if items != [] {
        ItemsAreRead(items, pretty, depth, rest, []);
        assert [] + items == items;
      }
      ArrayIsRead(items, pretty, depth, rest);
    case Obj(fields) =>
      if fields != [] {
        FieldsAreRead(fields, pretty, depth, rest, []);
        assert [] + fields == fields;
      }
      ObjectIsRead(fields, pretty, depth, rest);
  }

  lemma LiteralIsRead(v: Json, pretty: bool, depth: nat, rest: Text)
    requires v.Null? || v.Bool?
    ensures ReadValue(PrintThen(v, pretty, depth, rest)) == Some((v, rest))
  {
    var text := PrintThen(v, pretty, depth, rest);
    var name: Text :=
      if v.Null? then [110, 117, 108, 108] else if v.b then [116, 114, 117, 101] else [102, 97, 108, 115, 101];
    assert text == name + rest;
    assert text[0] == name[0] && text[..|name|] == name && text[|name|..] == rest;
    assert |name| == 4 ==> |text| >= 5 ==> text[..5] != [102, 97, 108, 115, 101];
    hide ReadString, ReadItems, ReadFields, ReadInteger;
  }

  lemma NumberIsRead(n: int, pretty: bool, depth: nat, rest: Text)
    requires Stops(rest)
    ensures ReadValue(PrintThen(Num(n), pretty, depth, rest)) == Some((Num(n), rest))
  {
    ReadNumber(n, rest);
    NumberStarts(n, rest);
    hide ReadString, ReadItems, ReadFields, ReadInteger, ReadLiteral, NumberThen;
  }

  lemma StringIsRead(s: Text, pretty: bool, depth: nat, rest: Text)
    ensures ReadValue(PrintThen(Str(s), pretty, depth, rest)) == Some((Str(s), rest))
  {
    ReadQuoted(s, rest);
    hide ReadString, ReadItems, ReadFields, ReadInteger, ReadLiteral, QuoteThen;
  }

  lemma ItemsStart(items: seq<Json>, pretty: bool, depth: nat, rest: Text)
    requires items != []
    ensures
      var t := SkipSpace(ItemsText(items, pretty, depth, rest));
      t != [] && t[0] != 93
  {
    hide PrintThen, Break, ItemsThen;
    var first := PrintThen(items[0], pretty, depth + 1, ItemsThen(items[1..], pretty, depth, rest));
    ValueStarts(items[0], pretty, depth + 1, ItemsThen(items[1..], pretty, depth, rest));
    BreakSkipped(pretty, depth + 1, first);
  }

  lemma FieldsStart(fields: seq<Field>, pretty: bool, depth: nat, rest: Text)
    requires fields != []
    ensures
      var t := SkipSpace(FieldsText(fields, pretty, depth, rest));
      t != [] && t[0] != 125
  {
    hide Break, FieldsThen, FieldText;
    var f, after := fields[0], FieldsThen(fields[1..], pretty, depth, rest);
    FieldStarts(f.key, pretty, f.value, depth, after);
    BreakSkipped(pretty, depth + 1, FieldText(f, pretty, depth, after));
  }

  /** A list that is not empty, by its opening bracket and what follows. */
  lemma OpenIsRead(inner: Text)
    ensures
      var t := SkipSpace(inner);
      && (t != [] && t[0] != 93 ==> ReadValue([91] + inner) == ReadItems(inner, []))
      && (t != [] && t[0] != 125 ==> ReadValue([123] + inner) == ReadFields(inner, []))
  {
    assert SkipSpace([91] + inner) == [91] + inner && ([91] + inner)[1..] == inner;
    assert SkipSpace([123] + inner) == [123] + inner && ([123] + inner)[1..] == inner;
    hide ReadString, ReadItems, ReadFields, ReadInteger, ReadLiteral, SkipSpace;
  }

  lemma EmptyIsRead(rest: Text)
    ensures ReadValue([91, 93] + rest) == Some((Arr([]), rest)) && ReadValue([123, 125] + rest) == Some((Obj([]), rest))
  {
    var a, o := [91, 93] + rest, [123, 125] + rest;
    assert a[1..] == [93] + rest && o[1..] == [125] + rest;
    assert ([93] + rest)[1..] == rest && ([125] + rest)[1..] == rest;
    hide ReadString, ReadItems, ReadFields, ReadInteger, ReadLiteral;
  }

  lemma PrintOpens(v: Json, pretty: bool, depth: nat, rest: Text)
    ensures v == Arr([]) ==> PrintThen(v, pretty, depth, rest) == [91, 93] + rest
    ensures v == Obj([]) ==> PrintThen(v, pretty, depth, rest) == [123, 125] + rest
    ensures v.Arr? && v.items != [] ==>
      PrintThen(v, pretty, depth, rest) == [91] + ItemsText(v.items, pretty, depth, rest)
    ensures v.Obj? && v.fields != [] ==>
      PrintThen(v, pretty, depth, rest) == [123] + FieldsText(v.fields, pretty, depth, rest)
  {
    hide Break, Colon, QuoteThen, ItemsThen, FieldsThen;
  }

  lemma ArrayIsRead(items: seq<Json>, pretty: bool, depth: nat, rest: Text)
    requires items != [] ==> ReadItems(ItemsText(items, pretty, depth, rest), []) == Some((Arr(items), rest))
    ensures ReadValue(PrintThen(Arr(items), pretty, depth, rest)) == Some((Arr(items), rest))
  {
    hide *;
    PrintOpens(Arr(items), pretty, depth, rest);
    EmptyIsRead(rest);
    if items != [] {
      ItemsStart(items, pretty, depth, rest);
      OpenIsRead(ItemsText(items, pretty, depth, rest));
    }
  }

  lemma ObjectIsRead(fields: seq<Field>, pretty: bool, depth: nat, rest: Text)
    requires fields != [] ==> ReadFields(FieldsText(fields, pretty, depth, rest), []) == Some((Obj(fields), rest))
    ensures ReadValue(PrintThen(Obj(fields), pretty, depth, rest)) == Some((Obj(fields), rest))
  {
    hide *;
    PrintOpens(Obj(fields), pretty, depth, rest);
    EmptyIsRead(rest);
    if fields != [] {
      FieldsStart(fields, pretty, depth, rest);
      OpenIsRead(FieldsText(fields, pretty, depth, rest));
    }
  }

  /** The text of a value, with or without indentation, reads back as the value. */
  lemma ReadsBack(v: Json, pretty: bool)
    ensures Read(Stringify(v, pretty)) == Some(v)
  {
    ValueIsRead(v, pretty, 0, []);
    hide PrintThen, ReadValue;
  }

  // ------------------------------------------------------------ so the text determines the value

  /** A value's text, at any depth and before any separator, stands for one value and shows where it ends. */
  lemma ValueDetermines(v: Json, w: Json, pretty: bool, depth: nat, r1: Text, r2: Text)
    requires Stops(r1) && Stops(r2) && PrintThen(v, pretty, depth, r1) == PrintThen(w, pretty, depth, r2)
    ensures v == w && r1 == r2
  {
    hide *;
    ValueIsRead(v, pretty, depth, r1);
    ValueIsRead(w, pretty, depth, r2);
  }

  /** A quoted string ends at its own closing quote and stands for one string. */
  lemma CharsDetermine(s: Text, t: Text, r1: Text, r2: Text)
    requires CharsThen(s, [34] + r1) == CharsThen(t, [34] + r2)
    ensures s == t && r1 == r2
  {
    hide *;
    ReadChars(s, r1);
    ReadChars(t, r2);
  }

  /** `JSON.stringify` is injective, with and without indentation. */
  lemma StringifyIsInjective(v: Json, w: Json, pretty: bool)
    ensures Stringify(v, pretty) == Stringify(w, pretty) <==> v == w
  {
    hide *;
    ReadsBack(v, pretty);
    ReadsBack(w, pretty);
  }

  // ------------------------------------------------------------ the shortest spelling

  /** No text that reads as this one unit is shorter than the printer's. */
  lemma EscapeIsShortest(u: Unit, text: Text)
    requires ReadChar(text) == Some(([u], []))
    ensures |Escape(u)| <= |text|
  {
    if text[0] == 92 {
      if ShortEscape(text[1]).Some? {
        assert ShortEscape(text[1]).value == u;
      }
    } else {
      assert text[..1] == [u];
    }
  }

  /** The hexadecimal digits of an escape are lower-case. */
  lemma EscapesAreLowerCase(u: Unit)
    ensures |Escape(u)| > 2 ==> forall i | 0 <= i < |Escape(u)| :: !(65 <= Escape(u)[i] <= 90)
  {
  }

  /** A surrogate pair is written as it is. */
  lemma PairsArePlain(s: Text, rest: Text)
    requires StartsWithPair(s)
    ensures CharsThen(s, rest) == s[..2] + CharsThen(s[2..], rest)
  {
    assert s[..2] == [s[0], s[1]];
  }
}
