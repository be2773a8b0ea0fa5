/** The canonical forms of a JSON value. */
module JsonCanonical {
  /*
   The canonical forms of a JSON value: with every object's keys sorted, printed with indentation for
   a design packet and without for visual evidence. Two values have the same canonical text exactly
   when they are the same up to the order of keys.
  */

  import opened JsonText
  import JsonReader
  import opened Sorting

  // ------------------------------------------------------------ what a value means

  /** A value with the order of keys forgotten. */
  datatype Value =
    | NullValue
    | BoolValue(b: bool)
    | NumValue(n: int)
    | StrValue(s: Text)
    | ArrValue(items: seq<Value>)
    | ObjValue(fields: map<Text, Value>)

  /** An object has each key once. */
  predicate KeyedOnce(fields: seq<Field>) {
    forall i, j | 0 <= i < j < |fields| :: fields[i].key != fields[j].key
  }

  predicate WellFormed(v: Json) {
    match v
    case Arr(items) => forall x | x in items :: WellFormed(x)
    case Obj(fields) => KeyedOnce(fields) && forall f | f in fields :: WellFormed(f.value)
    case _ => true
  }

  function Keys(fields: seq<Field>): set<Text> {
    set f | f in fields :: f.key
  }

  function Find(fields: seq<Field>, key: Text): (i: nat)
    requires key in Keys(fields)
    ensures i < |fields| && fields[i].key == key
  {
    if fields[0].key == key then 0 else 1 + Find(fields[1..], key)
  }

  function Meaning(v: Json): Value {
    match v
    case Null => NullValue
    case Bool(b) => BoolValue(b)
    case Num(n) => NumValue(n)
    case Str(s) => StrValue(s)
    case Arr(items) => ArrValue(seq(|items|, i requires 0 <= i < |items| => Meaning(items[i])))
    case Obj(fields) => ObjValue(FieldMeanings(fields))
  }

  function FieldMeanings(fields: seq<Field>): map<Text, Value> {
    map key | key in Keys(fields) :: Meaning(fields[Find(fields, key)].value)
  }

  // ------------------------------------------------------------ sorting the keys

  /** Strings compare by UTF-16 code unit. */
  const BY_KEY: (Field, Field) -> bool := By((f: Field) => f.key)

  function Decimal(key: Text): nat
    requires forall i | 0 <= i < |key| :: IsDigit(key[i])
  {
    if key == [] then 0 else
      assert IsDigit(key[|key| - 1]);
      10 * Decimal(key[..|key| - 1]) + (key[|key| - 1] - 48)
  }

  /** An array index: the canonical decimal form of an integer below 2^32 - 1. */
  predicate IsIndex(key: Text) {
    && key != []
    && (forall i | 0 <= i < |key| :: IsDigit(key[i]))
    && (|key| > 1 ==> key[0] != 48)
    && Decimal(key) < 0xFFFF_FFFF
  }

  function Filter(fields: seq<Field>, index: bool): seq<Field> {
    if fields == [] then []
    else (if IsIndex(fields[0].key) == index then [fields[0]] else []) + Filter(fields[1..], index)
  }

  function IndexOf(key: Text): nat {
    if IsIndex(key) then Decimal(key) else 0
  }

  const BY_INDEX: (Field, Field) -> bool := (a: Field, b: Field) => IndexOf(a.key) < IndexOf(b.key)

  /** The order in which an object built from these entries lists them: array indices first, ascending. */
  function OwnOrder(fields: seq<Field>): seq<Field> {
    Sort(Filter(fields, true), BY_INDEX) + Filter(fields, false)
  }

  /**
   Sorts the keys of every object in `v`. With `own`, an object is rebuilt from its sorted entries
   and so lists them in own-property order; without, its sorted entries are used as they are.
   */
  function SortJson(v: Json, own: bool): Json
    decreases v
  {
    match v
    case Arr(items) => Arr(seq(|items|, i requires 0 <= i < |items| => SortJson(items[i], own)))
    case Obj(fields) => Obj(if own then OwnOrder(SortedEntries(fields, own)) else SortedEntries(fields, own))
    case _ => v
  }

  function SortedEntries(fields: seq<Field>, own: bool): (entries: seq<Field>)
    ensures |entries| == |fields|
    decreases fields
  {
    var sorted := Sort(fields, BY_KEY);
    seq(|sorted|, i requires 0 <= i < |sorted| =>
      SortHas(fields, BY_KEY, sorted[i]); Field(sorted[i].key, SortJson(sorted[i].value, own)))
  }

  // ------------------------------------------------------------ rearrangements

  lemma KeyedOnceMeans(fields: seq<Field>)
    ensures KeyedOnce(fields) <==>
      Distinct(fields) && forall f, g | f in fields && g in fields && f.key == g.key :: f == g
  {
  }

  lemma {:induction false} FilterPermutes(fields: seq<Field>)
    ensures multiset(Filter(fields, true)) + multiset(Filter(fields, false)) == multiset(fields)
  {
    if fields != [] {
      FilterPermutes(fields[1..]);
      assert fields == [fields[0]] + fields[1..];
    }
  }

  lemma OwnOrderPermutes(fields: seq<Field>)
    ensures multiset(OwnOrder(fields)) == multiset(fields)
  {
    FilterPermutes(fields);
    SortPermutes(Filter(fields, true), BY_INDEX);
  }

  lemma RearrangedKeyedOnce(fields: seq<Field>, others: seq<Field>)
    requires multiset(fields) == multiset(others) && KeyedOnce(fields)
    ensures KeyedOnce(others) && forall f :: f in fields <==> f in others
  {
    PermutationKeepsDistinct(fields, others);
    assert forall f :: f in fields <==> f in multiset(fields);
    assert forall f :: f in others <==> f in multiset(others);
    KeyedOnceMeans(fields);
    KeyedOnceMeans(others);
  }

  lemma SortedByKey(fields: seq<Field>)
    requires KeyedOnce(fields)
    ensures KeyedOnce(Sort(fields, BY_KEY)) && StrictlyOrdered(Sort(fields, BY_KEY), BY_KEY)
    ensures forall f :: f in fields <==> f in Sort(fields, BY_KEY)
  {
    SortPermutes(fields, BY_KEY);
    RearrangedKeyedOnce(fields, Sort(fields, BY_KEY));
    ByKeyIsWeakOrder();
    SortOrders(fields, BY_KEY);
    var sorted := Sort(fields, BY_KEY);
    forall i, j | 0 <= i < j < |sorted|
      ensures BY_KEY(sorted[i], sorted[j])
    {
      LessIsTotal(sorted[i].key, sorted[j].key);
    }
  }

  lemma ByKeyIsWeakOrder()
    ensures WeakOrder(BY_KEY) && Asymmetric(BY_KEY)
  {
    ByIsWeakOrder((f: Field) => f.key);
  }

  /** The sorted entries are the children's sorted forms under the same keys. */
  lemma EntriesAre(fields: seq<Field>, own: bool)
    requires KeyedOnce(fields)
    ensures KeyedOnce(SortedEntries(fields, own)) && StrictlyOrdered(SortedEntries(fields, own), BY_KEY)
    ensures forall f | f in fields :: Field(f.key, SortJson(f.value, own)) in SortedEntries(fields, own)
    ensures forall e | e in SortedEntries(fields, own) ::
      exists f :: f in fields && e == Field(f.key, SortJson(f.value, own))
  {
    SortedByKey(fields);
    var sorted, entries := Sort(fields, BY_KEY), SortedEntries(fields, own);
    assert forall i | 0 <= i < |sorted| :: entries[i] == Field(sorted[i].key, SortJson(sorted[i].value, own));
    hide Sort, SortJson, SortedEntries;
    forall f | f in fields
      ensures Field(f.key, SortJson(f.value, own)) in entries
    {
      assert f in sorted;
    }
    forall e | e in entries
      ensures exists f :: f in fields && e == Field(f.key, SortJson(f.value, own))
    {
      var i :| 0 <= i < |entries| && entries[i] == e;
      assert sorted[i] in fields;
    }
    forall i, j | 0 <= i < j < |entries|
      ensures BY_KEY(entries[i], entries[j])
    {
      assert BY_KEY(sorted[i], sorted[j]);
    }
  }

  /** What the fields of the sorted form of an object are, whatever the order. */
  lemma ObjectFields(fields: seq<Field>, own: bool) returns (result: seq<Field>)
    requires KeyedOnce(fields)
    ensures SortJson(Obj(fields), own) == Obj(result) && KeyedOnce(result)
    ensures forall f | f in fields :: Field(f.key, SortJson(f.value, own)) in result
    ensures forall e | e in result :: exists f :: f in fields && e == Field(f.key, SortJson(f.value, own))
  {
    EntriesAre(fields, own);
    var entries := SortedEntries(fields, own);
    result := if own then OwnOrder(entries) else entries;
    assert SortJson(Obj(fields), own) == Obj(result);
    hide *;
    if own {
      OwnOrderPermutes(entries);
      RearrangedKeyedOnce(entries, result);
    }
  }

  lemma FindIs(fields: seq<Field>, f: Field)
    requires KeyedOnce(fields) && f in fields
    ensures f.key in Keys(fields) && fields[Find(fields, f.key)] == f
  {
    KeyedOnceMeans(fields);
  }

  // ------------------------------------------------------------ sorting keeps the meaning

  lemma {:induction false} SortJsonKeepsMeaning(v: Json, own: bool)
    requires WellFormed(v)
    ensures WellFormed(SortJson(v, own)) && Meaning(SortJson(v, own)) == Meaning(v)
  {
    match v
    case Arr(items) =>
      forall i | 0 <= i < |items|
        ensures WellFormed(SortJson(items[i], own)) && Meaning(SortJson(items[i], own)) == Meaning(items[i])
      {
        SortJsonKeepsMeaning(items[i], own);
      }
      var sorted := SortJson(v, own).items;
      assert Meaning(SortJson(v, own)).items == Meaning(v).items;
    case Obj(fields) =>
      forall f | f in fields
        ensures WellFormed(SortJson(f.value, own)) && Meaning(SortJson(f.value, own)) == Meaning(f.value)
      {
        SortJsonKeepsMeaning(f.value, own);
      }
      var result := ObjectFields(fields, own);
      SameFieldMeanings(fields, result, own);
    case _ =>
  }

  lemma SameFieldMeanings(fields: seq<Field>, result: seq<Field>, own: bool)
    requires KeyedOnce(fields) && KeyedOnce(result)
    requires forall f | f in fields :: Field(f.key, SortJson(f.value, own)) in result
    requires forall e | e in result :: exists f :: f in fields && e == Field(f.key, SortJson(f.value, own))
    requires forall f | f in fields :: Meaning(SortJson(f.value, own)) == Meaning(f.value)
    ensures FieldMeanings(result) == FieldMeanings(fields)
  {
    hide KeyedOnce, Meaning, SortJson, Find;
    forall key | key in Keys(fields)
      ensures key in Keys(result)
      ensures Meaning(result[Find(result, key)].value) == Meaning(fields[Find(fields, key)].value)
    {
      var f := fields[Find(fields, key)];
      FindIs(result, Field(f.key, SortJson(f.value, own)));
    }
    assert Keys(result) <= Keys(fields);
    assert Keys(result) == Keys(fields);
  }

  // ------------------------------------------------------------ the meaning decides the sorted form

  lemma {:induction false} MeaningDecides(v: Json, w: Json, own: bool)
    requires WellFormed(v) && WellFormed(w) && Meaning(v) == Meaning(w)
    ensures SortJson(v, own) == SortJson(w, own)
  {
    match v
    case Arr(items) =>
      var others := w.items;
      assert |items| == |Meaning(v).items| == |Meaning(w).items| == |others|;
      forall i | 0 <= i < |items|
        ensures SortJson(items[i], own) == SortJson(others[i], own)
      {
        assert Meaning(v).items[i] == Meaning(w).items[i];
        MeaningDecides(items[i], others[i], own);
      }
      assert SortJson(v, own).items == SortJson(w, own).items;
    case Obj(fields) =>
      var others := w.fields;
      assert FieldMeanings(fields) == FieldMeanings(others);
      forall f, g | f in fields && g in others && Meaning(f.value) == Meaning(g.value)
        ensures SortJson(f.value, own) == SortJson(g.value, own)
      {
        MeaningDecides(f.value, g.value, own);
      }
      EqualEntries(fields, others, own);
    case _ =>
  }

  lemma MeaningOfField(fields: seq<Field>, f: Field)
    requires KeyedOnce(fields) && f in fields
    ensures f.key in FieldMeanings(fields) && FieldMeanings(fields)[f.key] == Meaning(f.value)
  {
    FindIs(fields, f);
  }

  lemma FieldWithKey(fields: seq<Field>, key: Text) returns (f: Field)
    requires key in FieldMeanings(fields)
    ensures f in fields && f.key == key && FieldMeanings(fields)[key] == Meaning(f.value)
  {
    f := fields[Find(fields, key)];
  }

  /** The entries of the first object are among those of the second. */
  lemma EntriesWithin(fields: seq<Field>, others: seq<Field>, own: bool)
    requires KeyedOnce(fields) && KeyedOnce(others) && FieldMeanings(fields) == FieldMeanings(others)
    requires forall f, g | f in fields && g in others && Meaning(f.value) == Meaning(g.value) ::
      SortJson(f.value, own) == SortJson(g.value, own)
    ensures forall e | e in SortedEntries(fields, own) :: e in SortedEntries(others, own)
  {
    EntriesAre(fields, own);
    EntriesAre(others, own);
    hide *;
    forall e | e in SortedEntries(fields, own)
      ensures e in SortedEntries(others, own)
    {
      var f :| f in fields && e == Field(f.key, SortJson(f.value, own));
      MeaningOfField(fields, f);
      var g := FieldWithKey(others, f.key);
    }
  }

  lemma EqualEntries(fields: seq<Field>, others: seq<Field>, own: bool)
    requires KeyedOnce(fields) && KeyedOnce(others) && FieldMeanings(fields) == FieldMeanings(others)
    requires forall f, g | f in fields && g in others && Meaning(f.value) == Meaning(g.value) ::
      SortJson(f.value, own) == SortJson(g.value, own)
    ensures SortedEntries(fields, own) == SortedEntries(others, own)
  {
    hide Meaning, SortJson, SortedEntries, FieldMeanings;
    EntriesWithin(fields, others, own);
    EntriesWithin(others, fields, own);
    EntriesAre(fields, own);
    EntriesAre(others, own);
    KeyedOnceMeans(SortedEntries(fields, own));
    KeyedOnceMeans(SortedEntries(others, own));
    SameMembers(SortedEntries(fields, own), SortedEntries(others, own));
    ByKeyIsWeakOrder();
    StrictOrderIsUnique(SortedEntries(fields, own), SortedEntries(others, own), BY_KEY);
  }

  /** The sorted form is the same exactly when the values are, up to the order of keys. */
  lemma SortedFormIdentifies(v: Json, w: Json, own: bool)
    requires WellFormed(v) && WellFormed(w)
    ensures SortJson(v, own) == SortJson(w, own) <==> Meaning(v) == Meaning(w)
  {
    SortJsonKeepsMeaning(v, own);
    SortJsonKeepsMeaning(w, own);
    if Meaning(v) == Meaning(w) {
      MeaningDecides(v, w, own);
    }
  }

  lemma SortJsonIsIdempotent(v: Json, own: bool)
    requires WellFormed(v)
    ensures SortJson(SortJson(v, own), own) == SortJson(v, own)
  {
    SortJsonKeepsMeaning(v, own);
    MeaningDecides(SortJson(v, own), v, own);
  }

  // ------------------------------------------------------------ without array-index keys

  predicate NoIndexKeys(v: Json) {
    match v
    case Arr(items) => forall x | x in items :: NoIndexKeys(x)
    case Obj(fields) => forall f | f in fields :: !IsIndex(f.key) && NoIndexKeys(f.value)
    case _ => true
  }

  lemma {:induction false} FilterAll(fields: seq<Field>)
    requires forall f | f in fields :: !IsIndex(f.key)
    ensures Filter(fields, true) == [] && Filter(fields, false) == fields
  {
    if fields != [] {
      FilterAll(fields[1..]);
    }
  }

  lemma {:induction false} DecimalIsRead(key: Text)
    requires forall i | 0 <= i < |key| :: IsDigit(key[i])
    ensures Decimal(key) == JsonReader.DecimalOf(key)
    decreases |key|
  {
    if key != [] {
      DecimalIsRead(key[..|key| - 1]);
    }
  }

  lemma {:induction false} DecimalPrints(key: Text)
    requires key != [] && (|key| > 1 ==> key[0] != 48) && forall i | 0 <= i < |key| :: IsDigit(key[i])
    ensures Digits(Decimal(key)) == key && (key[0] != 48 ==> Decimal(key) > 0)
    decreases |key|
  {
    var front := key[..|key| - 1];
    if front != [] {
      DecimalPrints(front);
      assert key == front + [key[|key| - 1]];
    } else {
      assert Decimal(front) == 0 && IsDigit(key[0]);
    }
  }

  /** An array index is the decimal text of a number below 2^32 - 1, without leading zeros. */
  lemma IndexExactly(key: Text)
    ensures IsIndex(key) <==> exists n: nat :: n < 0xFFFF_FFFF && key == Digits(n)
    ensures forall n: nat | n < 0xFFFF_FFFF && key == Digits(n) :: IsIndex(key) && Decimal(key) == n
  {
    if IsIndex(key) {
      DecimalPrints(key);
    }
    forall n: nat | n < 0xFFFF_FFFF && key == Digits(n)
      ensures IsIndex(key) && Decimal(key) == n
    {
      JsonReader.DigitsMean(n);
      DecimalIsRead(key);
      NoLeadingZero(n);
    }
  }

  lemma NoLeadingZero(n: nat)
    ensures |Digits(n)| > 1 ==> Digits(n)[0] != 48
  {
    JsonReader.DigitsMean(n);
  }

  lemma {:induction false} FilterKeeps(fields: seq<Field>, index: bool)
    ensures forall f | f in Filter(fields, index) :: IsIndex(f.key) == index
  {
    hide IsIndex;
    if fields != [] {
      FilterKeeps(fields[1..], index);
    }
  }

  /** The order of own properties: array indices first, by number, then the other keys as they came. */
  lemma OwnOrderIs(fields: seq<Field>)
    ensures
      var own, n := OwnOrder(fields), |Filter(fields, true)|;
      && multiset(own) == multiset(fields) && n <= |own|
      && (forall i | 0 <= i < n :: IsIndex(own[i].key)) && (forall i | n <= i < |own| :: !IsIndex(own[i].key))
      && (forall i, j | 0 <= i < j < n :: IndexOf(own[i].key) <= IndexOf(own[j].key))
      && own[n..] == Filter(fields, false)
  {
    OwnOrderPermutes(fields);
    var sorted, others := Sort(Filter(fields, true), BY_INDEX), Filter(fields, false);
    assert OwnOrder(fields) == sorted + others;
    FilterKeeps(fields, true);
    FilterKeeps(fields, false);
    SortOrders(Filter(fields, true), BY_INDEX);
    hide Filter, Sort, IsIndex, IndexOf, OwnOrder;
    forall f | f in sorted
      ensures IsIndex(f.key)
    {
      SortHas(Filter(fields, true), BY_INDEX, f);
    }
    forall i, j | 0 <= i < j < |sorted|
      ensures IndexOf(sorted[i].key) <= IndexOf(sorted[j].key)
    {
      assert !BY_INDEX(sorted[j], sorted[i]);
    }
  }

  /** The two sorted forms differ only in where array-index keys go. */
  lemma {:induction false} SortedFormsAgree(v: Json)
    requires NoIndexKeys(v)
    ensures SortJson(v, true) == SortJson(v, false)
  {
    match v
    case Arr(items) =>
      forall i | 0 <= i < |items|
        ensures SortJson(items[i], true) == SortJson(items[i], false)
      {
        SortedFormsAgree(items[i]);
      }
      assert SortJson(v, true).items == SortJson(v, false).items;
    case Obj(fields) =>
      forall f | f in fields
        ensures SortJson(f.value, true) == SortJson(f.value, false)
      {
        SortedFormsAgree(f.value);
      }
      var sorted := Sort(fields, BY_KEY);
      forall i | 0 <= i < |sorted|
        ensures sorted[i] in fields
      {
        SortHas(fields, BY_KEY, sorted[i]);
      }
      assert SortedEntries(fields, true) == SortedEntries(fields, false);
      FilterAll(SortedEntries(fields, true));
    case _ =>
  }

  // ------------------------------------------------------------ the indented form of a packet

  function Units(text: string): Text {
    seq(|text|, i requires 0 <= i < |text| => text[i] as int % 0x1_0000)
  }

  function CanonicalPacketText(v: Json): Text {
    Stringify(SortJson(v, true), true) + Units("\n")
  }

  lemma CancelSuffix(x: Text, y: Text, a: Text)
    requires x + a == y + a
    ensures x == y
  {
    assert |x| == |y|;
    assert x == (x + a)[..|x|] && y == (y + a)[..|y|];
  }

  /** The canonical text is the same exactly when the values are, up to the order of keys. */
  lemma CanonicalTextIdentifies(v: Json, w: Json)
    requires WellFormed(v) && WellFormed(w)
    ensures CanonicalPacketText(v) == CanonicalPacketText(w) <==> Meaning(v) == Meaning(w)
  {
    SortedFormIdentifies(v, w, true);
    if CanonicalPacketText(v) == CanonicalPacketText(w) {
      hide SortJson, Meaning, WellFormed;
      CancelSuffix(Stringify(SortJson(v, true), true), Stringify(SortJson(w, true), true), Units("\n"));
      JsonReader.StringifyIsInjective(SortJson(v, true), SortJson(w, true), true);
    }
  }

  // ------------------------------------------------------------ what a packet's digest covers

  datatype Kind = Brief | Candidate | Review

  function Domain(kind: Kind): Text {
    match kind
    case Brief => Units("tfsb.design-brief-v1\n")
    case Candidate => Units("tfsb.design-candidate-v1\n")
    case Review => Units("tfsb.design-review-v1\n")
  }

  function DigestField(kind: Kind): Text {
    match kind
    case Brief => Units("briefDigest")
    case Candidate => Units("candidateDigest")
    case Review => Units("reviewDigest")
  }

  function Noun(kind: Kind): Text {
    match kind
    case Brief => Units("brief")
    case Candidate => Units("candidate")
    case Review => Units("review")
  }

  lemma DomainIsNamed(kind: Kind)
    ensures Domain(kind) == Units("tfsb.design-") + Noun(kind) + Units("-v1\n")
  {
  }

  lemma DigestFieldIsNamed(kind: Kind)
    ensures DigestField(kind) == Noun(kind) + Units("Digest")
  {
  }

  /** A packet's schema, its domain and its digest field are all named after its kind. */
  lemma NamedAfterKind(packet: seq<Field>, kind: Kind)
    requires KeyedOnce(packet) && Field(Units("schema"), Str(Units("tfsb.design-") + Noun(kind))) in packet
    ensures PacketKind(packet) == kind
    ensures DigestField(PacketKind(packet)) == Noun(kind) + Units("Digest")
    ensures Units("tfsb.design-") + Noun(kind) + Units("-v1\n") <= DigestInput(packet)
  {
    SchemaTellsKind(packet, kind);
    DomainIsNamed(kind);
    DigestFieldIsNamed(kind);
    hide Units, Noun, Domain, DigestField, PacketKind;
  }

  /** A packet of a kind's schema is of that kind. */
  lemma SchemaTellsKind(packet: seq<Field>, kind: Kind)
    requires KeyedOnce(packet) && Field(Units("schema"), Str(Units("tfsb.design-") + Noun(kind))) in packet
    ensures PacketKind(packet) == kind
  {
    FindIs(packet, Field(Units("schema"), Str(Units("tfsb.design-") + Noun(kind))));
    var brief, candidate := Units("tfsb.design-brief"), Units("tfsb.design-candidate");
    assert Units("tfsb.design-") + Units("brief") == brief;
    assert Units("tfsb.design-") + Units("candidate") == candidate;
    assert |brief| == 17 && |candidate| == 21 && |Units("tfsb.design-") + Units("review")| == 18;
    hide Units;
  }

  function PacketKind(packet: seq<Field>): Kind {
    var schema := Units("schema");
    if schema !in Keys(packet) then Review
    else
      var value := packet[Find(packet, schema)].value;
      if value == Str(Units("tfsb.design-brief")) then Brief
      else if value == Str(Units("tfsb.design-candidate")) then Candidate
      else Review
  }

  function Without(fields: seq<Field>, key: Text): seq<Field> {
    if fields == [] then []
    else (if fields[0].key == key then [] else [fields[0]]) + Without(fields[1..], key)
  }

  /** The text whose UTF-8 bytes are hashed. */
  function DigestInput(packet: seq<Field>): Text {
    Domain(PacketKind(packet)) + CanonicalPacketText(Obj(Without(packet, DigestField(PacketKind(packet)))))
  }

  lemma {:induction false} WithoutKeeps(fields: seq<Field>, key: Text)
    requires KeyedOnce(fields)
    ensures KeyedOnce(Without(fields, key))
    ensures forall f :: f in Without(fields, key) <==> f in fields && f.key != key
  {
    if fields != [] {
      WithoutKeeps(fields[1..], key);
      assert fields == [fields[0]] + fields[1..];
      assert forall i | 0 <= i < |Without(fields[1..], key)| :: Without(fields[1..], key)[i] in fields[1..];
    }
  }

  lemma WithoutMeanings(fields: seq<Field>, key: Text)
    requires KeyedOnce(fields)
    ensures FieldMeanings(Without(fields, key)) == FieldMeanings(fields) - {key}
  {
    WithoutKeeps(fields, key);
    var rest := Without(fields, key);
    assert Keys(rest) == Keys(fields) - {key};
    forall k | k in Keys(rest)
      ensures Meaning(rest[Find(rest, k)].value) == Meaning(fields[Find(fields, k)].value)
    {
      FindIs(fields, rest[Find(rest, k)]);
    }
  }

  lemma DomainsDiffer(k: Kind, l: Kind, x: Text, y: Text)
    requires Domain(k) + x == Domain(l) + y
    ensures k == l && x == y
  {
    assert (Domain(k) + x)[12] == (Domain(l) + y)[12];
    CancelPrefix(Domain(k), x, y);
  }

  /**
   Two packets hash the same text exactly when they are of one kind and agree, up to the order of
   keys, on every field but that kind's digest field.
   */
  lemma DigestCoversPacket(p: seq<Field>, q: seq<Field>)
    requires WellFormed(Obj(p)) && WellFormed(Obj(q))
    ensures DigestInput(p) == DigestInput(q) <==>
      && PacketKind(p) == PacketKind(q)
      && FieldMeanings(p) - {DigestField(PacketKind(p))} == FieldMeanings(q) - {DigestField(PacketKind(q))}
  {
    var k, l := PacketKind(p), PacketKind(q);
    var a, b := Without(p, DigestField(k)), Without(q, DigestField(l));
    WithoutKeeps(p, DigestField(k));
    WithoutKeeps(q, DigestField(l));
    assert WellFormed(Obj(a)) && WellFormed(Obj(b));
    WithoutMeanings(p, DigestField(k));
    WithoutMeanings(q, DigestField(l));
    CanonicalTextIdentifies(Obj(a), Obj(b));
    assert Meaning(Obj(a)) == ObjValue(FieldMeanings(a)) && Meaning(Obj(b)) == ObjValue(FieldMeanings(b));
    if DigestInput(p) == DigestInput(q) {
      hide *;
      DomainsDiffer(k, l, CanonicalPacketText(Obj(a)), CanonicalPacketText(Obj(b)));
    }
  }

  // ------------------------------------------------------------ the compact form of visual evidence

  function CommaEach(parts: seq<Text>): Text {
    if parts == [] then [] else [44] + parts[0] + CommaEach(parts[1..])
  }

  function CommaJoin(parts: seq<Text>): Text {
    if parts == [] then [] else parts[0] + CommaEach(parts[1..])
  }

  /** The text put together by joining the texts of the parts, an object's in the order of its sorted keys. */
  function CompactText(v: Json): Text
    decreases v
  {
    match v
    case Arr(items) => [91] + CommaJoin(seq(|items|, i requires 0 <= i < |items| => CompactText(items[i]))) + [93]
    case Obj(fields) => [123] + CommaJoin(CompactEntries(fields)) + [125]
    case _ => Stringify(v, false)
  }

  function CompactEntries(fields: seq<Field>): (entries: seq<Text>)
    ensures |entries| == |fields|
    decreases fields
  {
    var sorted := Sort(fields, BY_KEY);
    seq(|sorted|, i requires 0 <= i < |sorted| =>
      SortHas(fields, BY_KEY, sorted[i]); Stringify(Str(sorted[i].key), false) + [58] + CompactText(sorted[i].value))
  }

  /** The printer writes `text` for `v`, wherever it stands. */
  ghost predicate Prints(v: Json, text: Text) {
    forall depth, rest :: PrintThen(v, false, depth, rest) == text + rest
  }

  lemma {:induction false} CharsThenAppends(s: Text, x: Text, y: Text)
    ensures CharsThen(s, x + y) == CharsThen(s, x) + y
    decreases |s|
  {
    if s == [] {
    } else if StartsWithPair(s) {
      CharsThenAppends(s[2..], x, y);
    } else {
      CharsThenAppends(s[1..], x, y);
    }
  }

  lemma QuoteThenAppends(s: Text, rest: Text)
    ensures QuoteThen(s, rest) == QuoteThen(s, []) + rest
  {
    CharsThenAppends(s, [34], rest);
    assert [34] + [] == [34];
  }

  lemma ScalarPrints(v: Json)
    requires !v.Arr? && !v.Obj?
    ensures Prints(v, Stringify(v, false))
  {
    forall depth, rest
      ensures PrintThen(v, false, depth, rest) == Stringify(v, false) + rest
    {
      if v.Str? {
        QuoteThenAppends(v.s, rest);
      }
    }
  }

  lemma {:induction false} ItemsPrint(items: seq<Json>, texts: seq<Text>, depth: nat, rest: Text)
    requires |items| == |texts| && forall i | 0 <= i < |items| :: Prints(items[i], texts[i])
    ensures ItemsThen(items, false, depth, rest) == CommaEach(texts) + [93] + rest
    decreases |items|
  {
    if items != [] {
      ItemsPrint(items[1..], texts[1..], depth, rest);
    }
  }

  ghost predicate FieldPrints(field: Field, text: Text) {
    exists value :: Prints(field.value, value) && text == QuoteThen(field.key, []) + [58] + value
  }

  lemma FieldPrintsThen(field: Field, text: Text, depth: nat, rest: Text)
    requires FieldPrints(field, text)
    ensures QuoteThen(field.key, Colon(false) + PrintThen(field.value, false, depth, rest)) == text + rest
  {
    var value :| Prints(field.value, value) && text == QuoteThen(field.key, []) + [58] + value;
    assert PrintThen(field.value, false, depth, rest) == value + rest;
    QuoteThenAppends(field.key, [58] + (value + rest));
    hide Prints, FieldPrints, QuoteThen, PrintThen;
    assert text + rest == QuoteThen(field.key, []) + ([58] + (value + rest));
  }

  lemma {:induction false} FieldsPrint(fields: seq<Field>, texts: seq<Text>, depth: nat, rest: Text)
    requires |fields| == |texts| && forall i | 0 <= i < |fields| :: FieldPrints(fields[i], texts[i])
    ensures FieldsThen(fields, false, depth, rest) == CommaEach(texts) + [125] + rest
    decreases |fields|
  {
    hide FieldPrints, QuoteThen, Colon, PrintThen;
    if fields != [] {
      FieldsPrint(fields[1..], texts[1..], depth, rest);
      FieldPrintsThen(fields[0], texts[0], depth + 1, FieldsThen(fields[1..], false, depth, rest));
    }
  }

  lemma ArrayPrintsAt(items: seq<Json>, texts: seq<Text>, depth: nat, rest: Text)
    requires |items| == |texts| && forall i | 0 <= i < |items| :: Prints(items[i], texts[i])
    ensures PrintThen(Arr(items), false, depth, rest) == [91] + CommaJoin(texts) + [93] + rest
  {
    hide ItemsThen, CommaEach;
    if items != [] {
      ItemsPrint(items[1..], texts[1..], depth, rest);
    }
  }

  lemma ArrayPrints(items: seq<Json>, texts: seq<Text>)
    requires |items| == |texts| && forall i | 0 <= i < |items| :: Prints(items[i], texts[i])
    ensures Prints(Arr(items), [91] + CommaJoin(texts) + [93])
  {
    forall depth: nat, rest: Text
      ensures PrintThen(Arr(items), false, depth, rest) == [91] + CommaJoin(texts) + [93] + rest
    {
      ArrayPrintsAt(items, texts, depth, rest);
    }
  }

  lemma ObjectPrintsAt(fields: seq<Field>, texts: seq<Text>, depth: nat, rest: Text)
    requires |fields| == |texts| && forall i | 0 <= i < |fields| :: FieldPrints(fields[i], texts[i])
    ensures PrintThen(Obj(fields), false, depth, rest) == [123] + CommaJoin(texts) + [125] + rest
  {
    hide FieldPrints, QuoteThen, Colon, FieldsThen, CommaEach;
    if fields != [] {
      FieldsPrint(fields[1..], texts[1..], depth, rest);
      FieldPrintsThen(fields[0], texts[0], depth + 1, FieldsThen(fields[1..], false, depth, rest));
    }
  }

  lemma ObjectPrints(fields: seq<Field>, texts: seq<Text>)
    requires |fields| == |texts| && forall i | 0 <= i < |fields| :: FieldPrints(fields[i], texts[i])
    ensures Prints(Obj(fields), [123] + CommaJoin(texts) + [125])
  {
    forall depth: nat, rest: Text
      ensures PrintThen(Obj(fields), false, depth, rest) == [123] + CommaJoin(texts) + [125] + rest
    {
      ObjectPrintsAt(fields, texts, depth, rest);
    }
  }

  lemma {:induction false} CompactPrints(v: Json)
    ensures Prints(SortJson(v, false), CompactText(v))
  {
    match v
    case Arr(items) =>
      var texts := seq(|items|, i requires 0 <= i < |items| => CompactText(items[i]));
      forall i | 0 <= i < |items|
        ensures Prints(SortJson(v, false).items[i], texts[i])
      {
        CompactPrints(items[i]);
      }
      ArrayPrints(SortJson(v, false).items, texts);
    case Obj(fields) =>
      var sorted := Sort(fields, BY_KEY);
      forall i | 0 <= i < |sorted|
        ensures FieldPrints(SortedEntries(fields, false)[i], CompactEntries(fields)[i])
      {
        SortHas(fields, BY_KEY, sorted[i]);
        CompactPrints(sorted[i].value);
      }
      ObjectPrints(SortedEntries(fields, false), CompactEntries(fields));
    case _ => ScalarPrints(v);
  }

  /** The joined text is the printer's text of the sorted value. */
  lemma CompactTextIsPrinted(v: Json)
    ensures CompactText(v) == Stringify(SortJson(v, false), false)
  {
    CompactPrints(v);
    assert CompactText(v) + [] == CompactText(v);
  }

  lemma CompactTextIdentifies(v: Json, w: Json)
    requires WellFormed(v) && WellFormed(w)
    ensures CompactText(v) == CompactText(w) <==> Meaning(v) == Meaning(w)
  {
    CompactTextIsPrinted(v);
    CompactTextIsPrinted(w);
    SortedFormIdentifies(v, w, false);
    JsonReader.StringifyIsInjective(SortJson(v, false), SortJson(w, false), false);
  }
}
