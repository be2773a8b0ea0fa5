/** The digest texts of browser and host. */
module DigestTwins {
  /*
   The browser sorts an object's keys by UTF-16 code unit and rebuilds the object; the host keeps an
   object as a map ordered by the UTF-8 bytes of its keys. For keys that are no array indices and have
   no surrogates, such as all field names of packets, the two write the same text, so both sides hash
   the same bytes.
  */

  import opened Options
  import opened Bytes
  import opened Utf8
  import opened Sorting
  import opened JsonText
  import opened JsonCanonical
  import Reviews = ReviewValidators
  import Identifiers

  // ------------------------------------------------------------ UTF-8

  function UnitBytes(u: Unit): (b: seq<Byte>)
    ensures 1 <= |b| <= 3
  {
    CharBytes(u)
  }

  /** The bytes of the character that a surrogate pair stands for. */
  function PairBytes(high: Unit, low: Unit): seq<Byte>
    requires IsHigh(high) && IsLow(low)
  {
    CharBytes(0x10000 + (high - 0xD800) * 1024 + (low - 0xDC00))
  }

  /** The UTF-8 bytes of a text; a surrogate that is not in a pair is replaced. */
  function TextBytes(s: Text): seq<Byte>
    decreases |s|
  {
    if s == [] then []
    else if StartsWithPair(s) then PairBytes(s[0], s[1]) + TextBytes(s[2..])
    else UnitBytes(if IsHigh(s[0]) || IsLow(s[0]) then 0xFFFD else s[0]) + TextBytes(s[1..])
  }

  predicate NoSurrogates(s: Text) {
    forall i | 0 <= i < |s| :: !IsHigh(s[i]) && !IsLow(s[i])
  }

  lemma {:induction false} LessAfterPrefix(prefix: seq<nat>, x: seq<nat>, y: seq<nat>)
    ensures Less(prefix + x, prefix + y) <==> Less(x, y)
  {
    if prefix == [] {
      assert prefix + x == x && prefix + y == y;
    } else {
      LessAfterPrefix(prefix[1..], x, y);
      assert (prefix + x)[1..] == prefix[1..] + x && (prefix + y)[1..] == prefix[1..] + y;
    }
  }

  /** The bytes of a smaller unit are smaller at the first difference. */
  lemma SmallerUnit(u: Unit, v: Unit, x: seq<Byte>, y: seq<Byte>)
    requires u < v
    ensures Less(UnitBytes(u) + x, UnitBytes(v) + y)
  {
    var a, b := UnitBytes(u) + x, UnitBytes(v) + y;
    var k := UnitDifference(u, v);
    assert a[..k] == b[..k];
    LessAtFirstDifference(a, b, k);
  }

  /** A smaller number has the smaller high part, or the same one and the smaller low part. */
  lemma Digits(u: nat, v: nat)
    requires u < v
    ensures u / 64 < v / 64 || (u / 64 == v / 64 && u % 64 < v % 64)
  {
  }

  lemma Nested(u: nat)
    ensures u / 4096 == u / 64 / 64
  {
  }

  lemma UnitDifference(u: Unit, v: Unit) returns (k: nat)
    requires u < v
    ensures k < |UnitBytes(u)| && k < |UnitBytes(v)| && UnitBytes(u)[..k] == UnitBytes(v)[..k]
    ensures UnitBytes(u)[k] < UnitBytes(v)[k]
  {
    if u < 0x80 || (u < 0x800 && 0x800 <= v) {
      k := 0;
    } else if v < 0x800 {
      k := TwoByteDifference(u, v);
    } else {
      k := ThreeByteDifference(u, v);
    }
  }

  lemma TwoByteDifference(u: Unit, v: Unit) returns (k: nat)
    requires 0x80 <= u < v < 0x800
    ensures k < 2 && UnitBytes(u)[..k] == UnitBytes(v)[..k] && UnitBytes(u)[k] < UnitBytes(v)[k]
  {
    Digits(u, v);
    k := if u / 64 < v / 64 then 0 else 1;
  }

  lemma ThreeByteDifference(u: Unit, v: Unit) returns (k: nat)
    requires 0x800 <= u < v
    ensures k < 3 && UnitBytes(u)[..k] == UnitBytes(v)[..k] && UnitBytes(u)[k] < UnitBytes(v)[k]
  {
    Digits(u, v);
    Nested(u);
    Nested(v);
    if u / 64 == v / 64 {
      k := 2;
    } else {
      Digits(u / 64, v / 64);
      k := if u / 4096 < v / 4096 then 0 else 1;
    }
  }

  /** Without surrogates, UTF-8 orders like UTF-16. */
  lemma {:induction false} SameOrder(s: Text, t: Text)
    requires NoSurrogates(s) && NoSurrogates(t)
    ensures Less(TextBytes(s), TextBytes(t)) <==> Less(s, t)
    decreases |s|
  {
    if s != [] && t != [] {
      hide UnitBytes;
      assert TextBytes(s) == UnitBytes(s[0]) + TextBytes(s[1..]) && TextBytes(t) == UnitBytes(t[0]) + TextBytes(t[1..]);
      if s[0] < t[0] {
        SmallerUnit(s[0], t[0], TextBytes(s[1..]), TextBytes(t[1..]));
      } else if t[0] < s[0] {
        SmallerUnit(t[0], s[0], TextBytes(t[1..]), TextBytes(s[1..]));
        LessIsTotal(TextBytes(s), TextBytes(t));
      } else {
        LessAfterPrefix(UnitBytes(s[0]), TextBytes(s[1..]), TextBytes(t[1..]));
        SameOrder(s[1..], t[1..]);
      }
    }
  }

  // ------------------------------------------------------------ the host's text

  const BY_UTF8: (Field, Field) -> bool := By((f: Field) => TextBytes(f.key))

  /** Every object as a map ordered by the UTF-8 bytes of its keys. */
  function HostJson(v: Json): Json
    decreases v
  {
    match v
    case Arr(items) => Arr(seq(|items|, i requires 0 <= i < |items| => HostJson(items[i])))
    case Obj(fields) => Obj(HostEntries(fields))
    case _ => v
  }

  function HostEntries(fields: seq<Field>): (entries: seq<Field>)
    ensures |entries| == |fields|
    decreases fields
  {
    var sorted := Sort(fields, BY_UTF8);
    seq(|sorted|, i requires 0 <= i < |sorted| =>
      SortHas(fields, BY_UTF8, sorted[i]); Field(sorted[i].key, HostJson(sorted[i].value)))
  }

  /** The text the host hashes for a packet of this kind, if the packet has the kind's digest field. */
  function HostDigestInput(kind: Kind, packet: seq<Field>): Option<Text> {
    if DigestField(kind) !in Keys(packet) then None
    else Some(Domain(kind) + (Stringify(HostJson(Obj(Without(packet, DigestField(kind)))), true) + Units("\n")))
  }

  /** Keys without surrogates that are no array indices, at every depth. */
  predicate PlainKeys(v: Json) {
    match v
    case Arr(items) => forall x | x in items :: PlainKeys(x)
    case Obj(fields) => forall f | f in fields :: NoSurrogates(f.key) && !IsIndex(f.key) && PlainKeys(f.value)
    case _ => true
  }

  lemma {:induction false} PlainIsNoIndex(v: Json)
    requires PlainKeys(v)
    ensures NoIndexKeys(v)
  {
    match v
    case Arr(items) =>
      forall x | x in items
        ensures NoIndexKeys(x)
      {
        PlainIsNoIndex(x);
      }
    case Obj(fields) =>
      forall f | f in fields
        ensures NoIndexKeys(f.value)
      {
        PlainIsNoIndex(f.value);
      }
    case _ =>
  }

  lemma {:induction false} InsertAgrees<T>(x: T, s: seq<T>, less: (T, T) -> bool, other: (T, T) -> bool)
    requires forall y | y in s :: less(y, x) == other(y, x)
    ensures Insert(x, s, less) == Insert(x, s, other)
  {
    if s != [] {
      InsertAgrees(x, s[1..], less, other);
    }
  }

  /** Orders that agree on the elements of a list sort it alike. */
  lemma {:induction false} SortAgrees<T>(s: seq<T>, less: (T, T) -> bool, other: (T, T) -> bool)
    requires forall x, y | x in s && y in s :: less(x, y) == other(x, y)
    ensures Sort(s, less) == Sort(s, other)
  {
    if s != [] {
      SortAgrees(s[1..], less, other);
      forall y | y in Sort(s[1..], less)
        ensures less(y, s[0]) == other(y, s[0])
      {
        SortHas(s[1..], less, y);
      }
      InsertAgrees(s[0], Sort(s[1..], less), less, other);
    }
  }

  lemma PlainSortAgrees(fields: seq<Field>)
    requires forall f | f in fields :: NoSurrogates(f.key)
    ensures Sort(fields, BY_UTF8) == Sort(fields, BY_KEY)
  {
    hide NoSurrogates, TextBytes, Less, Sort;
    forall f, g | f in fields && g in fields
      ensures BY_UTF8(f, g) == BY_KEY(f, g)
    {
      SameOrder(f.key, g.key);
    }
    SortAgrees(fields, BY_UTF8, BY_KEY);
  }

  lemma {:induction false} HostSortsAlike(v: Json)
    requires PlainKeys(v)
    ensures HostJson(v) == SortJson(v, false)
  {
    match v
    case Arr(items) =>
      forall i | 0 <= i < |items|
        ensures HostJson(items[i]) == SortJson(items[i], false)
      {
        HostSortsAlike(items[i]);
      }
      assert HostJson(v).items == SortJson(v, false).items;
    case Obj(fields) =>
      forall f | f in fields
        ensures HostJson(f.value) == SortJson(f.value, false)
      {
        HostSortsAlike(f.value);
      }
      PlainSortAgrees(fields);
      var sorted := Sort(fields, BY_KEY);
      forall i | 0 <= i < |sorted|
        ensures sorted[i] in fields
      {
        SortHas(fields, BY_KEY, sorted[i]);
      }
      assert HostEntries(fields) == SortedEntries(fields, false);
    case _ =>
  }

  /** Browser and host write the same sorted text. */
  lemma SortedFormsAreOne(v: Json)
    requires PlainKeys(v)
    ensures HostJson(v) == SortJson(v, true)
  {
    HostSortsAlike(v);
    PlainIsNoIndex(v);
    SortedFormsAgree(v);
  }

  lemma {:induction false} WithoutHas(fields: seq<Field>, key: Text)
    ensures forall f | f in Without(fields, key) :: f in fields
  {
    if fields != [] {
      WithoutHas(fields[1..], key);
    }
  }

  /** A packet's kind is part of its meaning. */
  lemma KindOfMeaning(p: seq<Field>, q: seq<Field>)
    requires FieldMeanings(p) == FieldMeanings(q)
    ensures PacketKind(p) == PacketKind(q)
  {
    var schema := Units("schema");
    assert schema in Keys(p) <==> schema in FieldMeanings(p);
    assert schema in Keys(q) <==> schema in FieldMeanings(q);
    if schema in Keys(p) {
      assert FieldMeanings(p)[schema] == Meaning(p[Find(p, schema)].value);
      assert FieldMeanings(q)[schema] == Meaning(q[Find(q, schema)].value);
    }
  }

  /** For the same packet, its keys in any order, both sides hash the same text. */
  lemma SidesHashOneText(shown: seq<Field>, packet: seq<Field>)
    requires WellFormed(Obj(shown)) && WellFormed(Obj(packet)) && FieldMeanings(shown) == FieldMeanings(packet)
    requires PlainKeys(Obj(packet)) && DigestField(PacketKind(packet)) in Keys(packet)
    ensures HostDigestInput(PacketKind(packet), packet) == Some(DigestInput(shown))
  {
    KindOfMeaning(shown, packet);
    DigestCoversPacket(shown, packet);
    var rest := Without(packet, DigestField(PacketKind(packet)));
    WithoutHas(packet, DigestField(PacketKind(packet)));
    SortedFormsAreOne(Obj(rest));
    hide Domain, PacketKind, Keys, Stringify, HostJson, SortJson, WellFormed, FieldMeanings;
  }

  // ------------------------------------------------------------ whole review packets

  predicate PlainMeaning(v: Value) {
    match v
    case ArrValue(items) => forall x | x in items :: PlainMeaning(x)
    case ObjValue(fields) =>
      forall key | key in fields :: NoSurrogates(key) && !IsIndex(key) && PlainMeaning(fields[key])
    case _ => true
  }

  lemma {:induction false} PlainByMeaning(v: Json)
    requires WellFormed(v) && PlainMeaning(Meaning(v))
    ensures PlainKeys(v)
  {
    match v
    case Arr(items) =>
      forall i | 0 <= i < |items|
        ensures PlainKeys(items[i])
      {
        assert Meaning(v).items[i] == Meaning(items[i]);
        PlainByMeaning(items[i]);
      }
    case Obj(fields) =>
      forall f | f in fields
        ensures NoSurrogates(f.key) && !IsIndex(f.key) && PlainKeys(f.value)
      {
        MeaningOfField(fields, f);
        PlainByMeaning(f.value);
      }
    case _ =>
  }

  type Read = Identifiers.Text -> Text

  function Plainly(text: string): Value {
    StrValue(Units(text))
  }

  type Entry = (string, Value)

  /** The object with these entries. */
  function Object(entries: seq<Entry>): map<Text, Value> {
    if entries == [] then map[]
    else
      var last := |entries| - 1;
      Object(entries[..last])[Units(entries[last].0) := entries[last].1]
  }

  function ScopeEntries(scope: Reviews.Scope): seq<Entry> {
    match scope
    case Artifact => [("kind", Plainly("artifact"))]
    case Region(x, y, width, height) =>
      [("kind", Plainly("region")), ("xMillionths", NumValue(x)), ("yMillionths", NumValue(y)),
       ("widthMillionths", NumValue(width)), ("heightMillionths", NumValue(height))]
  }

  function Optional(key: string, value: Option<Identifiers.Text>, read: Read): seq<Entry> {
    if value.Some? then [(key, StrValue(read(value.value)))] else []
  }

  function AnnotationEntries(a: Reviews.Annotation, read: Read): seq<Entry> {
    Optional("elementId", a.elementId, read) +
    [("annotationId", StrValue(read(a.annotationId))),
     ("candidateDigest", StrValue(read(a.candidateDigest))),
     ("visualEvidenceDigest", StrValue(read(a.visualEvidenceDigest))),
     ("artifactRole", StrValue(read(a.artifactRole))),
     ("pngDigest", StrValue(read(a.pngDigest))),
     ("scope", ObjValue(Object(ScopeEntries(a.scope)))),
     ("category", StrValue(read(a.category))),
     ("severity", StrValue(read(a.severity))),
     ("comment", StrValue(read(a.comment)))]
  }

  function DispositionEntries(d: Reviews.Disposition, read: Read): seq<Entry> {
    [("candidateDigest", StrValue(read(d.candidateDigest))), ("disposition", Plainly(Reviews.StatusName(d.status)))]
  }

  function OverallEntries(overall: Reviews.Overall, read: Read): seq<Entry> {
    match overall
    case NoDecision => [("kind", Plainly("no-decision"))]
    case RejectedAll => [("kind", Plainly("rejected-all"))]
    case Chosen(status, digest) =>
      [("kind", Plainly(Reviews.StatusName(status))), ("candidateDigest", StrValue(read(digest)))]
  }

  function Mapped<T>(s: seq<T>, f: T -> Value): Value {
    ArrValue(seq(|s|, i requires 0 <= i < |s| => f(s[i])))
  }

  /** The packet of a review, in which `read` gives the UTF-16 units of a text. */
  function PacketEntries(r: Reviews.Review, read: Read): seq<Entry> {
    Optional("previousReviewDigest", r.previousReviewDigest, read) +
    [("schemaVersion", NumValue(1)),
     ("briefDigest", StrValue(read(r.briefDigest))),
     ("candidateDigests", Mapped(r.candidateDigests, d => StrValue(read(d)))),
     ("annotations", Mapped(r.annotations, a => ObjValue(Object(AnnotationEntries(a, read))))),
     ("dispositions", Mapped(r.dispositions, d => ObjValue(Object(DispositionEntries(d, read))))),
     ("overallDisposition", ObjValue(Object(OverallEntries(r.overall, read)))),
     ("summary", StrValue(read(r.summary))),
     ("reviewDigest", StrValue(read(r.reviewDigest))),
     ("schema", Plainly("tfsb.design-review"))]
  }

  function PacketMeaning(r: Reviews.Review, read: Read): map<Text, Value> {
    Object(PacketEntries(r, read))
  }

  predicate IsName(name: string) {
    name != "" && forall i | 0 <= i < |name| :: 'A' <= name[i] <= 'z'
  }

  lemma NameIsPlain(name: string)
    requires IsName(name)
    ensures NoSurrogates(Units(name)) && !IsIndex(Units(name))
  {
    assert !IsDigit(Units(name)[0]);
  }

  lemma {:induction false} ObjectIsPlain(entries: seq<Entry>)
    requires forall e | e in entries :: IsName(e.0) && PlainMeaning(e.1)
    ensures PlainMeaning(ObjValue(Object(entries)))
  {
    if entries != [] {
      var last := |entries| - 1;
      ObjectIsPlain(entries[..last]);
      NameIsPlain(entries[last].0);
      hide NoSurrogates, IsIndex, Units, IsName;
      assert PlainMeaning(entries[last].1);
    }
  }

  lemma ScopeNames()
    ensures IsName("kind") && IsName("xMillionths") && IsName("yMillionths") && IsName("widthMillionths")
    ensures IsName("heightMillionths") && IsName("candidateDigest") && IsName("disposition")
  {
  }

  lemma AnnotationNames()
    ensures IsName("annotationId") && IsName("visualEvidenceDigest") && IsName("artifactRole")
    ensures IsName("pngDigest") && IsName("scope") && IsName("category") && IsName("severity")
    ensures IsName("comment") && IsName("elementId")
  {
  }

  lemma OverallNames()
    ensures IsName("overallDisposition") && IsName("summary") && IsName("reviewDigest") && IsName("schema")
  {
  }

  lemma PacketNames()
    ensures IsName("previousReviewDigest") && IsName("schemaVersion") && IsName("briefDigest")
    ensures IsName("candidateDigests") && IsName("annotations") && IsName("dispositions")
  {
  }

  lemma ScalarsArePlain()
    ensures forall s :: PlainMeaning(StrValue(s))
    ensures forall n :: PlainMeaning(NumValue(n))
  {
  }

  lemma ScopeIsPlain(scope: Reviews.Scope)
    ensures PlainMeaning(ObjValue(Object(ScopeEntries(scope))))
  {
    ScopeNames();
    ScalarsArePlain();
    hide IsName, Object, Units, PlainMeaning;
    ObjectIsPlain(ScopeEntries(scope));
  }

  lemma AnnotationIsPlain(a: Reviews.Annotation, read: Read)
    ensures PlainMeaning(ObjValue(Object(AnnotationEntries(a, read))))
  {
    ScopeNames();
    AnnotationNames();
    ScopeIsPlain(a.scope);
    ScalarsArePlain();
    hide IsName, Object, Units, PlainMeaning, ScopeEntries;
    ObjectIsPlain(AnnotationEntries(a, read));
  }

  lemma DispositionIsPlain(d: Reviews.Disposition, read: Read)
    ensures PlainMeaning(ObjValue(Object(DispositionEntries(d, read))))
  {
    ScopeNames();
    hide IsName, Object, Units;
    ObjectIsPlain(DispositionEntries(d, read));
  }

  lemma OverallIsPlain(overall: Reviews.Overall, read: Read)
    ensures PlainMeaning(ObjValue(Object(OverallEntries(overall, read))))
  {
    ScopeNames();
    hide IsName, Object, Units;
    ObjectIsPlain(OverallEntries(overall, read));
  }

  lemma MappedIsPlain<T>(s: seq<T>, f: T -> Value)
    requires forall x | x in s :: PlainMeaning(f(x))
    ensures PlainMeaning(Mapped(s, f))
  {
  }

  lemma PacketIsPlain(r: Reviews.Review, read: Read)
    ensures PlainMeaning(ObjValue(PacketMeaning(r, read)))
  {
    PacketNames();
    OverallNames();
    ScalarsArePlain();
    hide IsName, Object, Units, AnnotationEntries, DispositionEntries, OverallEntries, Mapped, PlainMeaning;
    forall a | a in r.annotations
      ensures PlainMeaning(ObjValue(Object(AnnotationEntries(a, read))))
    {
      AnnotationIsPlain(a, read);
    }
    forall d | d in r.dispositions
      ensures PlainMeaning(ObjValue(Object(DispositionEntries(d, read))))
    {
      DispositionIsPlain(d, read);
    }
    MappedIsPlain(r.candidateDigests, d => StrValue(read(d)));
    MappedIsPlain(r.annotations, a => ObjValue(Object(AnnotationEntries(a, read))));
    MappedIsPlain(r.dispositions, d => ObjValue(Object(DispositionEntries(d, read))));
    OverallIsPlain(r.overall, read);
    ObjectIsPlain(PacketEntries(r, read));
  }

  /** An object has the keys of its last two entries, and the last value. */
  lemma LastEntries(entries: seq<Entry>)
    requires |entries| >= 2
    ensures
      var n := |entries|;
      && Units(entries[n - 1].0) in Object(entries) && Object(entries)[Units(entries[n - 1].0)] == entries[n - 1].1
      && Units(entries[n - 2].0) in Object(entries)
  {
    var rest := entries[..|entries| - 1];
    assert Units(rest[|rest| - 1].0) in Object(rest);
  }

  /** A review packet says that it is one, and has its digest. */
  lemma PacketIsReview(r: Reviews.Review, fields: seq<Field>, read: Read)
    requires FieldMeanings(fields) == PacketMeaning(r, read)
    ensures PacketKind(fields) == Kind.Review && DigestField(Kind.Review) in Keys(fields)
  {
    LastEntries(PacketEntries(r, read));
    hide Object;
    var schema := Units("schema");
    assert schema in Keys(fields);
    assert Meaning(fields[Find(fields, schema)].value) == Plainly("tfsb.design-review");
    assert |Units("tfsb.design-review")| == 18 && |Units("tfsb.design-brief")| == 17;
    assert |Units("tfsb.design-candidate")| == 21;
  }

  type Sha = seq<Byte> -> Identifiers.Text

  ghost predicate BrowserPacket(r: Reviews.Review, fields: seq<Field>, normal: Identifiers.Normal, sha: Sha) {
    Reviews.BrowserReview(r, normal) && sha(TextBytes(DigestInput(fields))) == r.reviewDigest
  }

  predicate HostPacket(r: Reviews.Review, fields: seq<Field>, normal: Identifiers.Normal, sha: Sha) {
    && Reviews.HostReview(r, normal)
    && HostDigestInput(Kind.Review, fields).Some?
    && sha(TextBytes(HostDigestInput(Kind.Review, fields).value)) == r.reviewDigest
  }

  /**
   Browser and host accept exactly the same review packets, digest included: `shown` is the packet as the
   browser receives it, its keys in any order, and `written` as the host writes it.
  */
  lemma ReviewPacketsAgree(
    r: Reviews.Review, shown: seq<Field>, written: seq<Field>, normal: Identifiers.Normal, sha: Sha, read: Read)
    requires Reviews.Typed(r) && WellFormed(Obj(shown)) && WellFormed(Obj(written))
    requires FieldMeanings(shown) == FieldMeanings(written) == PacketMeaning(r, read)
    ensures BrowserPacket(r, shown, normal, sha) <==> HostPacket(r, written, normal, sha)
  {
    PacketIsPlain(r, read);
    PacketIsReview(r, written, read);
    assert Meaning(Obj(written)) == ObjValue(PacketMeaning(r, read));
    PlainByMeaning(Obj(written));
    hide Reviews.BrowserReview, Reviews.HostReview, Reviews.Typed, HostDigestInput, DigestInput;
    hide TextBytes, PlainKeys, WellFormed, Keys, DigestField, PacketMeaning, FieldMeanings;
    Reviews.ReviewsAgree(r, normal);
    SidesHashOneText(shown, written);
  }

  // ------------------------------------------------------------ where the orders part

  /** Beyond the plain keys the two orders differ: a pair sorts before the unit FFFD, its bytes after. */
  lemma OrdersPart()
    ensures Less([0xD83D, 0xDE00], [0xFFFD]) && Less(TextBytes([0xFFFD]), TextBytes([0xD83D, 0xDE00]))
  {
    var pair: Text := [0xD83D, 0xDE00];
    assert TextBytes(pair)[0] == 0xF0 && TextBytes([0xFFFD])[0] == 0xEF;
  }
}
