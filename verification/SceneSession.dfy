/** A scene editing session. */
module SceneSession {
  /*
   A scene editing session. The session is a record of fields that each operation updates in place;
   beside it stand the values those fields take, and what each operation makes of them.
  */

  import opened Options
  import opened Bytes
  import opened Trimming
  import opened Alphabets
  import opened SceneEdits
  import PacketWindow

  type Packet = PacketWindow.Packet

  const MAX_REVISION: nat := 0xFFFF_FFFF_FFFF_FFFF
  type U64 = n: nat | n <= MAX_REVISION

  /** What the session takes from elsewhere: JSON texts, the size of a batch, and SHA-256 in hexadecimal. */
  datatype Host = Host(
    serialize: Scene -> Text,
    serializeBindings: map<Text, Text> -> Text,
    batchSize: seq<Edit> -> nat,
    sha: Text -> Text,
    snapshotName: (nat, Text) -> Text)

  datatype Reservation = Reservation(intentId: Text, sessionId: Text, revision: nat, digest: Text)

  datatype PlanKind = SaveJson | ExportSvg

  datatype Plan = Plan(
    id: Text, kind: PlanKind, target: Text, bytes: Text, digest: Text, sessionId: Text, revision: nat)

  datatype Verification = Verification(
    handle: Text, packetId: Text, candidateDigest: Text, svgDigest: Option<Text>, scene: Scene,
    metrics: Option<Text>, diagnostics: seq<Text>)

  /** What a compilation leaves; of the receipt only its source digest matters here. */
  datatype Evidence = Evidence(
    validatedJson: Option<Text>, svg: Option<Text>, svgDigest: Option<Text>, receiptDigest: Option<Text>,
    metrics: Option<Text>, diagnostics: seq<Text>)

  const NO_EVIDENCE: Evidence := Evidence(None, None, None, None, None, [])

  datatype State = State(
    sessionId: Text,
    revision: U64,
    sourceId: Option<Text>,
    snapshotId: Option<Text>,
    hostGeneration: nat,
    intent: Option<Reservation>,
    scene: Scene,
    canonicalJson: Text,
    digest: Text,
    dirty: bool,
    disposed: bool,
    evidence: Evidence,
    savePlan: Option<Plan>,
    exportPlan: Option<Plan>,
    packets: seq<Packet>,
    verifications: seq<Verification>)

  datatype Expected = Expected(
    sessionId: Text, revision: nat, digest: Option<Text>, sourceId: Option<Text>, snapshotId: Option<Text>,
    engine: Option<Text>)

  const MAX_EDITS: nat := 64
  const MAX_BATCH_BYTES: nat := 1024 * 1024
  const MAX_SCENE_BYTES: nat := 8 * 1024 * 1024
  const MAX_BINDINGS: nat := 1000
  const MAX_VERIFICATIONS: nat := 4

  // ------------------------------------------------------------ token colours

  predicate IsHexDigit(b: Byte) {
    48 <= b <= 57 || 65 <= b <= 70 || 97 <= b <= 102
  }

  /** The text without surrounding white space and one number sign. */
  function Digits(text: Text): Text {
    var trimmed := Trim(text);
    if Ascii("#") <= trimmed then trimmed[1..] else trimmed
  }

  /** Six hexadecimal digits, or eight bytes of which only the last two are looked at. */
  function Colour(text: Text): Option<Text> {
    var hex := Digits(text);
    if |hex| == 8 then
      if (hex[6] == 70 || hex[6] == 102) && (hex[7] == 70 || hex[7] == 102) then Some(Ascii("#") + hex[..6]) else None
    else if |hex| == 6 then
      if forall b | b in hex :: IsHexDigit(b) then Some(Ascii("#") + hex) else None
    else None
  }

  /** A hexadecimal digit, in either case. */
  lemma HexDigitsAre(b: Byte)
    ensures IsHexDigit(b) <==> b in DIGITS || b in LOWERS[..6] || b in UPPERS[..6]
  {
    LettersAndDigits(b);
    LowersAre(0);
    UppersAre(0);
    hide LOWERS, UPPERS, DIGITS;
  }

  /**
   What is accepted, with white space around it and a number sign before it or not: six digits, or eight
   bytes that end in ff.
  */
  lemma ColourExactly(before: Text, sign: Text, hex: Text, after: Text)
    requires Blank(before) && Blank(after) && sign in {[], [35]}
    requires hex != [] && hex[0] != 35 && Visible(hex[0]) && Visible(hex[|hex| - 1])
    ensures
      var r := Colour(before + (sign + hex) + after);
      && (r.Some? <==>
        || (|hex| == 6 && forall b | b in hex :: b in DIGITS || b in LOWERS[..6] || b in UPPERS[..6])
        || (|hex| == 8 && hex[6] in Ascii("fF") && hex[7] in Ascii("fF")))
      && (r.Some? ==> r.value == [35] + hex[..6])
  {
    var text := sign + hex;
    assert text[0] == if sign == [] then hex[0] else 35;
    Trimmed(before, text, after);
    assert Digits(before + text + after) == hex by {
      assert Ascii("#") == [35];
      assert sign == [] ==> text == hex;
      assert sign == [35] ==> text[1..] == hex;
    }
    LowersAre(0);
    UppersAre(0);
    hide Digits, IsHexDigit, LOWERS, UPPERS, DIGITS;
    forall b: Byte
      ensures IsHexDigit(b) <==> b in DIGITS || b in LOWERS[..6] || b in UPPERS[..6]
    {
      HexDigitsAre(b);
    }
    assert Ascii("fF") == [102, 70] && Ascii("#") == [35];
    assert |hex| == 6 ==> hex[..6] == hex;
  }

  /**
   An accepted colour is a number sign and six hexadecimal digits, unless it came from eight bytes that
   do not start with six.
  */
  lemma ColourIsHexExactly(text: Text)
    requires Colour(text).Some?
    ensures var colour := Colour(text).value;
      && |colour| == 7 && colour[0] == 35 && |Digits(text)| in {6, 8}
      && ((forall b | b in colour[1..] :: IsHexDigit(b)) <==>
            |Digits(text)| == 6 || forall b | b in Digits(text)[..6] :: IsHexDigit(b))
  {
    assert Colour(text).value[1..] == Digits(text)[..6];
    assert |Digits(text)| == 6 ==> Digits(text)[..6] == Digits(text);
  }

  /** A number sign, six times the letter z, and twice the letter f. */
  const EIGHT_BYTES: Text := [35, 122, 122, 122, 122, 122, 122, 102, 102]

  /**
   Eight bytes of which the first six are no digits at all. This is about the binding of tokens taken
   alone: the application's own caller cuts its colours to six digits before.
   */
  lemma EightByteColourIsUnchecked()
    ensures Colour(EIGHT_BYTES) == Some([35, 122, 122, 122, 122, 122, 122])
  {
    EightByteDigits();
    var hex := Digits(EIGHT_BYTES);
    hide Digits;
    assert Ascii("#") + hex[..6] == [35, 122, 122, 122, 122, 122, 122];
  }

  lemma EightByteDigits()
    ensures Digits(EIGHT_BYTES) == [122, 122, 122, 122, 122, 122, 102, 102]
  {
    assert TrimStart(EIGHT_BYTES) == EIGHT_BYTES;
    assert TrimEnd(EIGHT_BYTES) == EIGHT_BYTES;
  }

  predicate ColoursOk(bindings: map<Text, Text>) {
    forall name | name in bindings :: Colour(bindings[name]).Some?
  }

  function Colours(bindings: map<Text, Text>): (colours: map<Text, Text>)
    requires ColoursOk(bindings)
    ensures colours.Keys == bindings.Keys && |colours| == |bindings|
  {
    var colours := map name | name in bindings :: Colour(bindings[name]).value;
    assert colours.Keys == bindings.Keys && |colours| == |colours.Keys|;
    colours
  }

  // ------------------------------------------------------------ what the operations make of a state

  function Initial(host: Host, sessionId: Text, scene: Scene): State {
    var json := host.serialize(scene);
    State(sessionId, 0, None, None, 0, None, scene, json, host.sha(json), false, false, NO_EVIDENCE, None, None, [], [])
  }

  function Invalidated(s: State): State {
    s.(verifications := [], savePlan := None, exportPlan := None, evidence := NO_EVIDENCE)
  }

  function Updated(host: Host, s: State): State {
    var json := host.serialize(s.scene);
    s.(canonicalJson := json, digest := host.sha(json))
  }

  function Disposed(s: State): State {
    s.(disposed := true, intent := None, savePlan := None, exportPlan := None, packets := [], verifications := [])
  }

  predicate Untouched(s: State) {
    s.revision == 0 && !s.dirty && s.sourceId.None? && !s.disposed
  }

  function Check(s: State, e: Expected): Reply<()> {
    if s.disposed then Err(ContextStale)
    else if s.sessionId != e.sessionId then Err(ContextInvalid)
    else if s.revision != e.revision then Err(Stale)
    else if e.digest.Some? && e.digest.value != s.digest then Err(DigestMismatch)
    else if e.sourceId != s.sourceId || e.snapshotId != s.snapshotId then Err(ContextStale)
    else if e.engine.Some? && e.engine.value != Ascii("tfsb.vector-scene-v1:1:1") then Err(ContextStale)
    else Ok(())
  }

  /** Whether a replacement may be reserved. */
  function MayReserve(s: State, expected: Option<Expected>, client: Option<Text>): Reply<()> {
    if s.disposed then Err(ContextStale)
    else if !Untouched(s) && expected.None? then Err(ContextInvalid)
    else if expected.Some? && Check(s, expected.value).Err? then Check(s, expected.value)
    else if client.Some? && s.intent.Some? && s.intent.value.intentId != client.value then Err(Stale)
    else Ok(())
  }

  function Reserved(s: State, expected: Option<Expected>, client: Option<Text>, id: Text): (State, Reply<Reservation>) {
    var allowed := MayReserve(s, expected, client);
    if allowed.Err? then (s, Err(allowed.error))
    else
      var reservation := Reservation(id, s.sessionId, s.revision, s.digest);
      (s.(intent := Some(reservation)), Ok(reservation))
  }

  function Cancelled(s: State, reservation: Reservation): State {
    if s.intent == Some(reservation) then s.(intent := None) else s
  }

  function Validated(s: State, reservation: Reservation): Reply<()> {
    if s.disposed then Err(ContextStale)
    else if s.sessionId != reservation.sessionId then Err(ContextInvalid)
    else if s.revision != reservation.revision then Err(Stale)
    else if s.digest != reservation.digest then Err(DigestMismatch)
    else if s.intent != Some(reservation) then Err(Stale)
    else Ok(())
  }

  /** The scene an accepted batch leads to. */
  function EditedScene(host: Host, s: State, edits: seq<Edit>): Reply<Scene> {
    if s.disposed then Err(ContextStale)
    else if |edits| > MAX_EDITS then Err(ResultTooLarge)
    else if host.batchSize(edits) > MAX_BATCH_BYTES then Err(ResultTooLarge)
    else
      var tentative := ApplyAll(s.scene, edits);
      if tentative.Err? then tentative
      else if |host.serialize(tentative.value)| > MAX_SCENE_BYTES then Err(ResultTooLarge)
      else if s.revision == MAX_REVISION then Err(ContextStale)
      else tentative
  }

  function Edited(host: Host, s: State, edits: seq<Edit>): (State, Reply<()>) {
    if !s.disposed && edits == [] then (s, Ok(()))
    else
      var scene := EditedScene(host, s, edits);
      if scene.Err? then (s, Err(scene.error))
      else (Updated(host, Invalidated(s.(revision := s.revision + 1, scene := scene.value, dirty := true))), Ok(()))
  }

  /** The colours an accepted binding of tokens installs. */
  function AdmittedColours(s: State, generation: nat, bindings: map<Text, Text>): Reply<map<Text, Text>> {
    if s.disposed then Err(ContextStale)
    else if generation < s.hostGeneration then Err(ContextStale)
    else if !ColoursOk(bindings) then Err(DomainFailed)
    else if |bindings| > MAX_BINDINGS then Err(ResultTooLarge)
    else if s.revision == MAX_REVISION then Err(ContextStale)
    else Ok(Colours(bindings))
  }

  function Bound(host: Host, s: State, generation: nat, bindings: map<Text, Text>): (State, Reply<()>) {
    var colours := AdmittedColours(s, generation, bindings);
    if colours.Err? then (s, Err(colours.error)) else (Installed(host, s, generation, colours.value), Ok(()))
  }

  function Installed(host: Host, s: State, generation: nat, colours: map<Text, Text>): State
    requires s.revision < MAX_REVISION
  {
    var bumped := s.(revision := s.revision + 1, hostGeneration := generation);
    var snapshot := host.snapshotName(generation, host.sha(host.serializeBindings(colours)));
    Updated(host, Invalidated(Rebound(bumped, snapshot, colours)))
  }

  function Rebound(s: State, snapshot: Text, colours: map<Text, Text>): State {
    s.(snapshotId := Some(snapshot), scene := s.scene.(tokenBindings := Some(colours)), dirty := true)
  }

  function SourceDigest(host: Host, json: Text): Text {
    Ascii("sha256:") + host.sha(json)
  }

  /** `placed` is the target, once its parent directory and display name are known, or the error of finding them. */
  function SavePlanned(host: Host, s: State, placed: Reply<Text>, id: Text): (State, Reply<Plan>) {
    if s.disposed then (s, Err(ContextStale))
    else if s.evidence.svg.None? || s.evidence.receiptDigest.None? || s.evidence.validatedJson.None?
    then (s, Err(PlanInvalid))
    else
      var json := s.evidence.validatedJson.value;
      if s.evidence.receiptDigest.value != SourceDigest(host, json) then (s, Err(DigestMismatch))
      else if placed.Err? then (s, Err(placed.error))
      else
        var plan := Plan(id, SaveJson, placed.value, json, host.sha(json), s.sessionId, s.revision);
        (s.(savePlan := Some(plan)), Ok(plan))
  }

  function ExportPlanned(host: Host, s: State, placed: Reply<Text>, id: Text): (State, Reply<Plan>) {
    if s.disposed then (s, Err(ContextStale))
    else if s.evidence.svg.None? || s.evidence.receiptDigest.None? || s.evidence.validatedJson.None?
    then (s, Err(PlanInvalid))
    else if s.evidence.receiptDigest.value != SourceDigest(host, s.evidence.validatedJson.value)
    then (s, Err(PlanInvalid))
    else if placed.Err? then (s, Err(placed.error))
    else
      var svg := s.evidence.svg.value;
      var digest := s.evidence.svgDigest.GetOr(host.sha(svg));
      var plan := Plan(id, ExportSvg, placed.value, svg, digest, s.sessionId, s.revision);
      (s.(exportPlan := Some(plan)), Ok(plan))
  }

  /** What becomes of a plan that is asked for by `id`. */
  function Handed(s: State, held: Option<Plan>, id: Text, expired: bool): Reply<Plan> {
    if held.None? || held.value.id != id then Err(PlanInvalid)
    else if expired then Err(PlanExpired)
    else if held.value.sessionId != s.sessionId || held.value.revision != s.revision then Err(Stale)
    else Ok(held.value)
  }

  function SaveTaken(s: State, id: Text, expired: bool): (State, Reply<Plan>) {
    if s.disposed then (s, Err(ContextStale)) else (s.(savePlan := None), Handed(s, s.savePlan, id, expired))
  }

  function ExportTaken(s: State, id: Text, expired: bool): (State, Reply<Plan>) {
    if s.disposed then (s, Err(ContextStale)) else (s.(exportPlan := None), Handed(s, s.exportPlan, id, expired))
  }

  function PacketRetained(
    host: Host, s: State, id: Text, kind: Text, json: Text, claims: seq<Text>): (State, Reply<Packet>) {
    if s.disposed then (s, Err(ContextStale))
    else if |json| > PacketWindow.MAX_PACKET_BYTES then (s, Err(ResultTooLarge))
    else
      var packet := PacketWindow.Packet(id, kind, json, host.sha(json), claims);
      (s.(packets := PacketWindow.Retain(s.packets, packet)), Ok(packet))
  }

  function Others(vs: seq<Verification>, handle: Text): seq<Verification> {
    if vs == [] then []
    else (if vs[0].handle == handle then [] else [vs[0]]) + Others(vs[1..], handle)
  }

  function Newest(vs: seq<Verification>): seq<Verification> {
    if |vs| >= MAX_VERIFICATIONS then Newest(vs[1..]) else vs
  }

  function HandleOf(host: Host, candidateDigest: Text): Text {
    Ascii("scene-verify-") + host.sha(candidateDigest)
  }

  /** `v` carries any handle; the one it gets comes from its candidate digest. */
  function VerificationRetained(host: Host, s: State, v: Verification): (State, Text) {
    var handle := HandleOf(host, v.candidateDigest);
    (s.(verifications := Newest(Others(s.verifications, handle)) + [v.(handle := handle)]), handle)
  }

  function HandlePosition(vs: seq<Verification>, handle: Text): (p: Option<nat>)
    ensures p.Some? ==> p.value < |vs| && vs[p.value].handle == handle
  {
    if vs == [] then None
    else if vs[0].handle == handle then Some(0)
    else
      var rest := HandlePosition(vs[1..], handle);
      if rest.None? then None else Some(rest.value + 1)
  }

  function VerificationTaken(s: State, handle: Text, expired: bool): (State, Reply<Verification>) {
    var found := HandlePosition(s.verifications, handle);
    if found.None? then (s, Err(PlanInvalid))
    else
      var p := found.value;
      (s.(verifications := s.verifications[..p] + s.verifications[p + 1..]),
       if expired then Err(PlanExpired) else Ok(s.verifications[p]))
  }

  // ------------------------------------------------------------ the session

  class SceneSession {
    const host: Host
    const sessionId: Text
    var revision: U64
    var sourceId: Option<Text>
    var snapshotId: Option<Text>
    var hostGeneration: nat
    var intent: Option<Reservation>
    var scene: Scene
    var canonicalJson: Text
    var digest: Text
    var dirty: bool
    var disposed: bool
    var evidence: Evidence
    var savePlan: Option<Plan>
    var exportPlan: Option<Plan>
    var packets: seq<Packet>
    var verifications: seq<Verification>

    function Value(): State
      reads this
    {
      State(sessionId, revision, sourceId, snapshotId, hostGeneration, intent, scene, canonicalJson, digest, dirty,
        disposed, evidence, savePlan, exportPlan, packets, verifications)
    }

    constructor (host: Host, sessionId: Text, scene: Scene)
      ensures this.host == host && Value() == Initial(host, sessionId, scene)
    {
      this.host, this.sessionId := host, sessionId;
      revision, sourceId, snapshotId, hostGeneration := 0, None, None, 0;
      intent, this.scene := None, scene;
      var json := host.serialize(scene);
      canonicalJson, digest := json, host.sha(json);
      dirty, disposed, evidence := false, false, NO_EVIDENCE;
      savePlan, exportPlan, packets, verifications := None, None, [], [];
    }

    method NextRevision() returns (r: Reply<U64>)
      modifies this`revision
      ensures r == if disposed || old(revision) == MAX_REVISION then Err(ContextStale) else Ok(old(revision) + 1)
      ensures revision == if r.Ok? then r.value else old(revision)
    {
      if disposed || revision == MAX_REVISION {
        return Err(ContextStale);
      }
      revision := revision + 1;
      return Ok(revision);
    }

    method CheckExpected(e: Expected) returns (r: Reply<()>)
      ensures r == Check(Value(), e)
    {
      if disposed {
        return Err(ContextStale);
      }
      if sessionId != e.sessionId {
        return Err(ContextInvalid);
      }
      if revision != e.revision {
        return Err(Stale);
      }
      if e.digest.Some? && e.digest.value != digest {
        return Err(DigestMismatch);
      }
      if e.sourceId != sourceId || e.snapshotId != snapshotId {
        return Err(ContextStale);
      }
      if e.engine.Some? && e.engine.value != Ascii("tfsb.vector-scene-v1:1:1") {
        return Err(ContextStale);
      }
      return Ok(());
    }

    method BeginReplacementIntent(expected: Option<Expected>, client: Option<Text>, id: Text)
        returns (r: Reply<Reservation>)
      modifies this`intent
      ensures (Value(), r) == Reserved(old(Value()), expected, client, id)
    {
      if disposed {
        return Err(ContextStale);
      }
      if !(revision == 0 && !dirty && sourceId.None? && !disposed) && expected.None? {
        return Err(ContextInvalid);
      }
      if expected.Some? {
        var checked := CheckExpected(expected.value);
        if checked.Err? {
          return Err(checked.error);
        }
      }
      if client.Some? && intent.Some? && intent.value.intentId != client.value {
        return Err(Stale);
      }
      var reservation := Reservation(id, sessionId, revision, digest);
      intent := Some(reservation);
      return Ok(reservation);
    }

    method CancelReplacementIntent(reservation: Reservation)
      modifies this`intent
      ensures Value() == Cancelled(old(Value()), reservation)
    {
      if intent == Some(reservation) {
        intent := None;
      }
    }

    method ValidateReplacementIntent(reservation: Reservation) returns (r: Reply<()>)
      ensures r == Validated(Value(), reservation)
    {
      if disposed {
        return Err(ContextStale);
      }
      if sessionId != reservation.sessionId {
        return Err(ContextInvalid);
      }
      if revision != reservation.revision {
        return Err(Stale);
      }
      if digest != reservation.digest {
        return Err(DigestMismatch);
      }
      return if intent != Some(reservation) then Err(Stale) else Ok(());
    }

    method InvalidateEvidence()
      modifies this`verifications, this`savePlan, this`exportPlan, this`evidence
      ensures Value() == Invalidated(old(Value()))
    {
      verifications := [];
      savePlan := None;
      exportPlan := None;
      evidence := NO_EVIDENCE;
    }

    method UpdateCanonical()
      modifies this`canonicalJson, this`digest
      ensures Value() == Updated(host, old(Value()))
    {
      var json := host.serialize(scene);
      digest := host.sha(json);
      canonicalJson := json;
    }

    method Dispose()
      modifies this`disposed, this`intent, this`savePlan, this`exportPlan, this`packets, this`verifications
      ensures Value() == Disposed(old(Value()))
    {
      disposed := true;
      intent := None;
      savePlan := None;
      exportPlan := None;
      packets := [];
      verifications := [];
    }

    /** The batch is applied to a copy of the scene, which replaces the scene only when all of it succeeds. */
    method ApplyEdits(edits: seq<Edit>) returns (r: Reply<()>)
      modifies this
      ensures (Value(), r) == Edited(host, old(Value()), edits)
    {
      hide ApplyAll;
      if disposed {
        return Err(ContextStale);
      }
      if edits == [] {
        return Ok(());
      }
      if |edits| > MAX_EDITS {
        return Err(ResultTooLarge);
      }
      if host.batchSize(edits) > MAX_BATCH_BYTES {
        return Err(ResultTooLarge);
      }
      var tentative := ApplyOperations(scene, edits);
      if tentative.Err? {
        return Err(tentative.error);
      }
      if |host.serialize(tentative.value)| > MAX_SCENE_BYTES {
        return Err(ResultTooLarge);
      }
      var next := NextRevision();
      if next.Err? {
        return Err(next.error);
      }
      scene := tentative.value;
      dirty := true;
      Refresh();
      return Ok(());
    }

    method BindTokens(generation: nat, bindings: map<Text, Text>) returns (r: Reply<()>)
      modifies this
      ensures (Value(), r) == Bound(host, old(Value()), generation, bindings)
    {
      hide Installed, Colours, ColoursOk;
      if disposed {
        return Err(ContextStale);
      }
      if generation < hostGeneration {
        return Err(ContextStale);
      }
      var colours := ValidateBindings(bindings);
      if colours.None? {
        return Err(DomainFailed);
      }
      if |colours.value| > MAX_BINDINGS {
        return Err(ResultTooLarge);
      }
      if revision == MAX_REVISION {
        return Err(ContextStale);
      }
      InstallColours(generation, colours.value);
      return Ok(());
    }

    method InstallColours(generation: nat, colours: map<Text, Text>)
      requires !disposed && revision < MAX_REVISION
      modifies this
      ensures Value() == Installed(host, old(Value()), generation, colours)
    {
      hide Invalidated, Updated, Rebound;
      var next := NextRevision();
      hostGeneration := generation;
      Rebind(host.snapshotName(generation, host.sha(host.serializeBindings(colours))), colours);
      Refresh();
    }

    method Rebind(snapshot: Text, colours: map<Text, Text>)
      modifies this`snapshotId, this`scene, this`dirty
      ensures Value() == Rebound(old(Value()), snapshot, colours)
    {
      snapshotId := Some(snapshot);
      scene := scene.(tokenBindings := Some(colours));
      dirty := true;
    }

    /** What every change of the scene ends with. */
    method Refresh()
      modifies this`verifications, this`savePlan, this`exportPlan, this`evidence, this`canonicalJson, this`digest
      ensures Value() == Updated(host, Invalidated(old(Value())))
    {
      hide Invalidated, Updated;
      InvalidateEvidence();
      UpdateCanonical();
    }

    method RetainSavePlan(placed: Reply<Text>, id: Text) returns (r: Reply<Plan>)
      modifies this`savePlan
      ensures (Value(), r) == SavePlanned(host, old(Value()), placed, id)
    {
      if disposed {
        return Err(ContextStale);
      }
      if evidence.svg.None? || evidence.receiptDigest.None? || evidence.validatedJson.None? {
        return Err(PlanInvalid);
      }
      var json := evidence.validatedJson.value;
      if evidence.receiptDigest.value != SourceDigest(host, json) {
        return Err(DigestMismatch);
      }
      if placed.Err? {
        return Err(placed.error);
      }
      savePlan := Some(Plan(id, SaveJson, placed.value, json, host.sha(json), sessionId, revision));
      return Ok(savePlan.value);
    }

    method RetainExportPlan(placed: Reply<Text>, id: Text) returns (r: Reply<Plan>)
      modifies this`exportPlan
      ensures (Value(), r) == ExportPlanned(host, old(Value()), placed, id)
    {
      if disposed {
        return Err(ContextStale);
      }
      if evidence.svg.None? || evidence.receiptDigest.None? || evidence.validatedJson.None? {
        return Err(PlanInvalid);
      }
      if evidence.receiptDigest.value != SourceDigest(host, evidence.validatedJson.value) {
        return Err(PlanInvalid);
      }
      if placed.Err? {
        return Err(placed.error);
      }
      var svg := evidence.svg.value;
      var svgDigest := if evidence.svgDigest.Some? then evidence.svgDigest.value else host.sha(svg);
      exportPlan := Some(Plan(id, ExportSvg, placed.value, svg, svgDigest, sessionId, revision));
      return Ok(exportPlan.value);
    }

    /** The plan leaves its slot whether or not it is handed out. */
    method TakeSavePlan(id: Text, expired: bool) returns (r: Reply<Plan>)
      modifies this`savePlan
      ensures (Value(), r) == SaveTaken(old(Value()), id, expired)
    {
      if disposed {
        return Err(ContextStale);
      }
      var plan := savePlan;
      savePlan := None;
      if plan.None? || plan.value.id != id {
        return Err(PlanInvalid);
      }
      if expired {
        return Err(PlanExpired);
      }
      if plan.value.sessionId != sessionId || plan.value.revision != revision {
        return Err(Stale);
      }
      return Ok(plan.value);
    }

    method TakeExportPlan(id: Text, expired: bool) returns (r: Reply<Plan>)
      modifies this`exportPlan
      ensures (Value(), r) == ExportTaken(old(Value()), id, expired)
    {
      if disposed {
        return Err(ContextStale);
      }
      var plan := exportPlan;
      exportPlan := None;
      if plan.None? || plan.value.id != id {
        return Err(PlanInvalid);
      }
      if expired {
        return Err(PlanExpired);
      }
      if plan.value.sessionId != sessionId || plan.value.revision != revision {
        return Err(Stale);
      }
      return Ok(plan.value);
    }

    /** Evicts from the front, first by count, then by the running total of bytes. */
    method RetainPacket(id: Text, kind: Text, json: Text, claims: seq<Text>) returns (r: Reply<Packet>)
      modifies this`packets
      ensures (Value(), r) == PacketRetained(host, old(Value()), id, kind, json, claims)
    {
      if disposed {
        return Err(ContextStale);
      }
      if |json| > PacketWindow.MAX_PACKET_BYTES {
        return Err(ResultTooLarge);
      }
      ghost var before := packets;
      while |packets| >= PacketWindow.MAX_RETAINED_PACKETS
        invariant PacketWindow.DropForCount(packets) == PacketWindow.DropForCount(before)
        decreases |packets|
      {
        packets := packets[1..];
      }
      var aggregate := PacketWindow.Total(packets);
      ghost var few := packets;
      while aggregate + |json| > PacketWindow.MAX_PACKETS_AGGREGATE_BYTES && packets != []
        invariant aggregate == PacketWindow.Total(packets)
        invariant PacketWindow.DropForBytes(packets, |json|) == PacketWindow.DropForBytes(few, |json|)
        decreases |packets|
      {
        var removed := packets[0];
        packets := packets[1..];
        aggregate := if aggregate < |removed.json| then 0 else aggregate - |removed.json|;
      }
      var packet := PacketWindow.Packet(id, kind, json, host.sha(json), claims);
      packets := packets + [packet];
      return Ok(packet);
    }

    method RetainVerification(v: Verification) returns (handle: Text)
      modifies this`verifications
      ensures (Value(), handle) == VerificationRetained(host, old(Value()), v)
    {
      handle := HandleOf(host, v.candidateDigest);
      verifications := Others(verifications, handle);
      ghost var others := verifications;
      while |verifications| >= MAX_VERIFICATIONS
        invariant Newest(verifications) == Newest(others)
        decreases |verifications|
      {
        verifications := verifications[1..];
      }
      verifications := verifications + [v.(handle := handle)];
    }

    method TakeVerification(handle: Text, expired: bool) returns (r: Reply<Verification>)
      modifies this`verifications
      ensures (Value(), r) == VerificationTaken(old(Value()), handle, expired)
    {
      var found := HandlePosition(verifications, handle);
      if found.None? {
        return Err(PlanInvalid);
      }
      var verification := verifications[found.value];
      verifications := verifications[..found.value] + verifications[found.value + 1..];
      return if expired then Err(PlanExpired) else Ok(verification);
    }
  }

  /** The colours of all bindings, unless one is not a colour. */
  method ValidateBindings(bindings: map<Text, Text>) returns (r: Option<map<Text, Text>>)
    ensures r == if ColoursOk(bindings) then Some(Colours(bindings)) else None
  {
    hide Colour;
    var todo := bindings.Keys;
    var colours: map<Text, Text> := map[];
    while todo != {}
      invariant todo <= bindings.Keys && colours.Keys == bindings.Keys - todo
      invariant forall name | name in colours :: Colour(bindings[name]) == Some(colours[name])
      decreases |todo|
    {
      var name :| name in todo;
      var colour := Colour(bindings[name]);
      if colour.None? {
        return None;
      }
      colours := colours[name := colour.value];
      todo := todo - {name};
    }
    assert ColoursOk(bindings) && colours == Colours(bindings);
    return Some(colours);
  }
}
