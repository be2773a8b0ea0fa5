/** The text of a JSON value. */
module JsonText {
  /*
   JSON values and their text as `JSON.stringify` writes it, with or without indentation. Text is a
   sequence of UTF-16 code units, numbers are integers, and an object is its own properties in order.

   The printers carry the text that follows, so that where a value ends can be told from its text:
   whatever follows a value starts with a separator. Surrogates outside a pair are escaped like control
   characters.
  */

  type Unit = n: nat | n < 0x1_0000
  type Text = seq<Unit>

  datatype Json =
    | Null
    | Bool(b: bool)
    | Num(n: int)
    | Str(s: Text)
    | Arr(items: seq<Json>)
    | Obj(fields: seq<Field>)

  datatype Field = Field(key: Text, value: Json)

  // ------------------------------------------------------------ strings

  predicate IsHigh(u: Unit) {
    0xD800 <= u <= 0xDBFF
  }

  predicate IsLow(u: Unit) {
    0xDC00 <= u <= 0xDFFF
  }

  function HexDigit(d: nat): Unit
    requires d < 16
  {
    if d < 10 then 48 + d else 87 + d
  }

  /** A backslash, the letter u, and four lower-case hexadecimal digits. */
  function UnicodeEscape(u: Unit): Text {
    [92, 117, HexDigit(u / 0x1000), HexDigit(u / 0x100 % 16), HexDigit(u / 16 % 16), HexDigit(u % 16)]
  }

  /** One code unit that is not part of a surrogate pair. */
  function Escape(u: Unit): Text {
    if u == 34 then [92, 34]
    else if u == 92 then [92, 92]
    else if u == 8 then [92, 98]
    else if u == 12 then [92, 102]
    else if u == 10 then [92, 110]
    else if u == 13 then [92, 114]
    else if u == 9 then [92, 116]
    else if u < 32 || IsHigh(u) || IsLow(u) then UnicodeEscape(u)
    else [u]
  }

  predicate StartsWithPair(s: Text) {
    |s| >= 2 && IsHigh(s[0]) && IsLow(s[1])
  }

  /** The characters of `s`, then `rest`. A surrogate that is not in a pair is escaped. */
  function CharsThen(s: Text, rest: Text): Text {
    if s == [] then rest
    else if StartsWithPair(s) then [s[0], s[1]] + CharsThen(s[2..], rest)
    else Escape(s[0]) + CharsThen(s[1..], rest)
  }

  function QuoteThen(s: Text, rest: Text): Text {
    [34] + CharsThen(s, [34] + rest)
  }

  // ------------------------------------------------------------ numbers

  function Digits(n: nat): (digits: Text)
    ensures digits != []
  {
    if n < 10 then [48 + n] else Digits(n / 10) + [48 + n % 10]
  }

  function NumberThen(n: int, rest: Text): Text {
    if n < 0 then [45] + Digits(-n) + rest else Digits(n) + rest
  }

  // ------------------------------------------------------------ values

  /** What separates the parts of a structure at this depth: a line break and two spaces a level, or nothing. */
  function Break(pretty: bool, depth: nat): Text {
    if pretty then [10] + seq(2 * depth, i requires 0 <= i < 2 * depth => 32) else []
  }

  function Colon(pretty: bool): Text {
    if pretty then [58, 32] else [58]
  }

  /** The text of `v` at this depth, then `rest`. */
  function PrintThen(v: Json, pretty: bool, depth: nat, rest: Text): Text
    decreases v, 1
  {
    match v
    case Null => [110, 117, 108, 108] + rest
    case Bool(b) => (if b then [116, 114, 117, 101] else [102, 97, 108, 115, 101]) + rest
    case Num(n) => NumberThen(n, rest)
    case Str(s) => QuoteThen(s, rest)
    case Arr(items) =>
      if items == [] then [91, 93] + rest
      else
        [91] + Break(pretty, depth + 1) +
        PrintThen(items[0], pretty, depth + 1, ItemsThen(items[1..], pretty, depth, rest))
    case Obj(fields) =>
      if fields == [] then [123, 125] + rest
      else
        [123] + Break(pretty, depth + 1) +
        QuoteThen(fields[0].key, Colon(pretty) +
          PrintThen(fields[0].value, pretty, depth + 1, FieldsThen(fields[1..], pretty, depth, rest)))
  }

  /** The items after the first, the closing bracket, then `rest`. */
  function ItemsThen(items: seq<Json>, pretty: bool, depth: nat, rest: Text): Text
    decreases items, 0
  {
    if items == [] then Break(pretty, depth) + [93] + rest
    else
      [44] + Break(pretty, depth + 1) +
      PrintThen(items[0], pretty, depth + 1, ItemsThen(items[1..], pretty, depth, rest))
  }

  function FieldsThen(fields: seq<Field>, pretty: bool, depth: nat, rest: Text): Text
    decreases fields, 0
  {
    if fields == [] then Break(pretty, depth) + [125] + rest
    else
      [44] + Break(pretty, depth + 1) +
      QuoteThen(fields[0].key, Colon(pretty) +
        PrintThen(fields[0].value, pretty, depth + 1, FieldsThen(fields[1..], pretty, depth, rest)))
  }

  /** `JSON.stringify(v)`, or `JSON.stringify(v, null, 2)` when pretty. */
  function Stringify(v: Json, pretty: bool): Text {
    PrintThen(v, pretty, 0, [])
  }

  // ------------------------------------------------------------ what can stand after a value

  predicate IsDigit(u: Unit) {
    48 <= u <= 57
  }

  /** What may follow a value: nothing, or a separator. */
  predicate Stops(rest: Text) {
    rest == [] || rest[0] in [10, 44, 93, 125]
  }

  lemma CancelPrefix(a: Text, x: Text, y: Text)
    requires a + x == a + y
    ensures x == y
  {
    assert x == (a + x)[|a|..] && y == (a + y)[|a|..];
  }
}
