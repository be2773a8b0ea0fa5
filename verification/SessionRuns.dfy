/**
 Whole runs of a scene session, with compilation as a step of its surroundings.

 A run is a sequence of states and the step taken from each. What a plan, a reservation or a
 verification promises when it is handed out is about the steps since it was made: it got into its
 place at some step, has been there since, and whatever would have made it stale did not happen in
 between.
 */
module SessionRuns {
  import opened Options
  import opened SceneEdits
  import opened SceneSession
  import EditLaws
  import PacketWindow

  datatype Step =
    | Edits(edits: seq<Edit>)
    | Bind(generation: nat, bindings: map<Text, Text>)
    | Compile(evidence: Evidence)
    | RetainPlan(kind: PlanKind, placed: Reply<Text>, id: Text)
    | TakePlan(kind: PlanKind, id: Text, expired: bool)
    | RetainPacket(id: Text, packetKind: Text, json: Text, claims: seq<Text>)
    | RetainVerification(verification: Verification)
    | TakeVerification(handle: Text, expired: bool)
    | Begin(expected: Option<Expected>, client: Option<Text>, id: Text)
    | Cancel(reservation: Reservation)
    | Validate(reservation: Reservation)
    | Dispose

  datatype Outcome =
    | Nothing
    | Changed(result: Reply<()>)
    | PlanOf(plan: Reply<Plan>)
    | PacketOf(packet: Reply<Packet>)
    | HandleTo(handle: Text)
    | VerificationOf(verification: Reply<Verification>)
    | ReservationOf(reservation: Reply<Reservation>)

  function Next(host: Host, s: State, step: Step): (State, Outcome) {
    match step
    case Edits(edits) => var (t, r) := Edited(host, s, edits); (t, Changed(r))
    case Bind(generation, bindings) => var (t, r) := Bound(host, s, generation, bindings); (t, Changed(r))
    case Compile(evidence) => (if s.disposed then s else s.(evidence := evidence), Nothing)
    case RetainPlan(kind, placed, id) =>
      var (t, r) := if kind == SaveJson then SavePlanned(host, s, placed, id) else ExportPlanned(host, s, placed, id);
      (t, PlanOf(r))
    case TakePlan(kind, id, expired) =>
      var (t, r) := if kind == SaveJson then SaveTaken(s, id, expired) else ExportTaken(s, id, expired);
      (t, PlanOf(r))
    case RetainPacket(id, kind, json, claims) =>
      var (t, r) := PacketRetained(host, s, id, kind, json, claims); (t, PacketOf(r))
    case RetainVerification(v) => var (t, h) := VerificationRetained(host, s, v); (t, HandleTo(h))
    case TakeVerification(handle, expired) =>
      var (t, r) := VerificationTaken(s, handle, expired); (t, VerificationOf(r))
    case Begin(expected, client, id) => var (t, r) := Reserved(s, expected, client, id); (t, ReservationOf(r))
    case Cancel(reservation) => (Cancelled(s, reservation), Nothing)
    case Validate(reservation) => (s, Changed(Validated(s, reservation)))
    case Dispose => (Disposed(s), Nothing)
  }

  function HeldPlan(s: State, kind: PlanKind): Option<Plan> {
    if kind == SaveJson then s.savePlan else s.exportPlan
  }

  // ------------------------------------------------------------ edits

  /** Within the limits, each edit accepted by the scene it meets, and a revision left. */
  ghost predicate EditsFit(host: Host, s: State, edits: seq<Edit>) {
    && |edits| <= MAX_EDITS && host.batchSize(edits) <= MAX_BATCH_BYTES && EditLaws.AllApply(s.scene, edits)
    && (ApplyAll(s.scene, edits).Ok? ==> |host.serialize(ApplyAll(s.scene, edits).value)| <= MAX_SCENE_BYTES)
    && s.revision != MAX_REVISION
  }

  /** A batch succeeds as a whole, raising the revision by one and leaving no evidence, or changes nothing. */
  lemma EditsAreAllOrNothing(host: Host, s: State, edits: seq<Edit>)
    ensures var (t, r) := Edited(host, s, edits);
      && (r.Ok? <==> !s.disposed && (edits == [] || EditsFit(host, s, edits)))
      && (r.Err? ==> t == s)
      && (r.Ok? && edits == [] ==> t == s)
      && (r.Ok? && edits != [] ==>
        && Ok(t.scene) == ApplyAll(s.scene, edits)
        && t.revision == s.revision + 1
        && t.dirty
        && Synced(host, t)
        && t.evidence == NO_EVIDENCE && t.savePlan.None? && t.exportPlan.None? && t.verifications == []
        && t.packets == s.packets && t.intent == s.intent && t.snapshotId == s.snapshotId)
  {
    EditLaws.BatchAppliesExactly(s.scene, edits);
    hide ApplyAll, EditLaws.AllApply;
  }

  /** So does a binding of tokens, which takes a new snapshot and changes only the scene's bindings. */
  lemma BindingsAreAllOrNothing(host: Host, s: State, generation: nat, bindings: map<Text, Text>)
    ensures var (t, r) := Bound(host, s, generation, bindings);
      && (r.Ok? <==>
        && !s.disposed && s.hostGeneration <= generation && ColoursOk(bindings) && |bindings| <= MAX_BINDINGS
        && s.revision < MAX_REVISION)
      && (r.Err? ==> t == s)
      && (r.Ok? ==>
        && t.scene == s.scene.(tokenBindings := Some(Colours(bindings)))
        && t.revision == s.revision + 1 && t.hostGeneration == generation
        && t.dirty && t.snapshotId.Some?
        && Synced(host, t)
        && t.evidence == NO_EVIDENCE && t.savePlan.None? && t.exportPlan.None? && t.verifications == []
        && t.packets == s.packets && t.intent == s.intent)
  {
    hide ColoursOk, Colours;
  }

  /** The digest and the text are those of the current scene. */
  predicate Synced(host: Host, s: State) {
    s.canonicalJson == host.serialize(s.scene) && s.digest == host.sha(s.canonicalJson)
  }

  /** Every step keeps the digest that of the scene. */
  lemma StaysSynced(host: Host, s: State, step: Step)
    requires Synced(host, s)
    ensures Synced(host, Next(host, s, step).0)
  {
    hide ApplyAll, ColoursOk, Colours;
    if step.Edits? {
      EditsAreAllOrNothing(host, s, step.edits);
    } else if step.Bind? {
      BindingsAreAllOrNothing(host, s, step.generation, step.bindings);
    } else {
      OthersKeepScene(host, s, step);
    }
  }

  predicate ChangesScene(step: Step) {
    step.Edits? || step.Bind?
  }

  lemma OthersKeepScene(host: Host, s: State, step: Step)
    requires !ChangesScene(step)
    ensures var t := Next(host, s, step).0;
      && t.scene == s.scene && t.canonicalJson == s.canonicalJson && t.digest == s.digest
      && t.revision == s.revision && t.sessionId == s.sessionId
  {
    hide PacketWindow.Retain, Others, Newest, Handed, MayReserve;
  }

  // ------------------------------------------------------------ what one step can do

  lemma StepAdvances(host: Host, s: State, step: Step)
    ensures var t := Next(host, s, step).0;
      && t.sessionId == s.sessionId && s.revision <= t.revision && (s.disposed ==> t.disposed)
      && (t.revision == s.revision ==> t.scene == s.scene && t.digest == s.digest && t.canonicalJson == s.canonicalJson)
  {
    if ChangesScene(step) {
      hide ApplyAll, ColoursOk, Colours;
    } else {
      OthersKeepScene(host, s, step);
      hide PacketWindow.Retain, Others, Newest, Handed, MayReserve, Edited, Bound;
    }
  }

  /** A plan's contents are the evidence it was made from, whose receipt vouches for the validated text. */
  predicate MadeFrom(host: Host, s: State, p: Plan) {
    && s.evidence.svg.Some? && s.evidence.validatedJson.Some?
    && s.evidence.receiptDigest == Some(SourceDigest(host, s.evidence.validatedJson.value))
    && p.bytes == (if p.kind == SaveJson then s.evidence.validatedJson.value else s.evidence.svg.value)
    && (p.kind == SaveJson ==> p.digest == host.sha(p.bytes))
    && p.sessionId == s.sessionId && p.revision == s.revision
  }

  /** A plan gets into its slot only by being retained. */
  lemma PlanRises(host: Host, s: State, step: Step, kind: PlanKind, p: Plan)
    requires HeldPlan(s, kind) != Some(p) && HeldPlan(Next(host, s, step).0, kind) == Some(p)
    ensures step.RetainPlan? && step.kind == kind == p.kind && step.id == p.id
    ensures Next(host, s, step).1 == PlanOf(Ok(p)) && MadeFrom(host, s, p) && !s.disposed
  {
    hide ApplyAll, EditedScene, AdmittedColours, PacketWindow.Retain, Others, Newest, Handed, MayReserve, Check;
  }

  /** Asking for a plan empties its slot, and hands out only the plan that was there, if it is current. */
  lemma TakeEmpties(host: Host, s: State, step: Step)
    requires step.TakePlan? && !s.disposed
    ensures var (t, outcome) := Next(host, s, step);
      && HeldPlan(t, step.kind).None?
      && (outcome.plan.Ok? <==>
        && HeldPlan(s, step.kind).Some?
        && HeldPlan(s, step.kind).value.id == step.id
        && !step.expired
        && HeldPlan(s, step.kind).value.sessionId == s.sessionId
        && HeldPlan(s, step.kind).value.revision == s.revision)
      && (outcome.plan.Ok? ==> HeldPlan(s, step.kind) == Some(outcome.plan.value))
  {
  }

  lemma IntentRises(host: Host, s: State, step: Step, r: Reservation)
    requires s.intent != Some(r) && Next(host, s, step).0.intent == Some(r)
    ensures step.Begin? && Next(host, s, step).1 == ReservationOf(Ok(r)) && !s.disposed
    ensures r == Reservation(step.id, s.sessionId, s.revision, s.digest)
  {
    hide ApplyAll, EditedScene, AdmittedColours, PacketWindow.Retain, Others, Newest, Handed, Check;
  }

  // ------------------------------------------------------------ verifications

  predicate HandlesDiffer(vs: seq<Verification>) {
    forall i, j | 0 <= i < j < |vs| :: vs[i].handle != vs[j].handle
  }

  lemma {:induction false} OthersAre(vs: seq<Verification>, handle: Text)
    ensures forall v :: v in Others(vs, handle) <==> v in vs && v.handle != handle
    ensures HandlesDiffer(vs) ==> HandlesDiffer(Others(vs, handle))
  {
    if vs != [] {
      OthersAre(vs[1..], handle);
      assert vs == [vs[0]] + vs[1..];
      var rest := Others(vs[1..], handle);
      if HandlesDiffer(vs) {
        assert forall i | 0 <= i < |rest| :: rest[i] in vs[1..];
      }
    }
  }

  lemma {:induction false} NewestAre(vs: seq<Verification>)
    ensures |Newest(vs)| < MAX_VERIFICATIONS && |Newest(vs)| <= |vs| && Newest(vs) == vs[|vs| - |Newest(vs)|..]
  {
    if |vs| >= MAX_VERIFICATIONS {
      NewestAre(vs[1..]);
      assert vs[1..][|vs| - 1 - |Newest(vs)|..] == vs[|vs| - |Newest(vs)|..];
    } else {
      assert vs[0..] == vs;
    }
  }

  predicate VerificationsOk(s: State) {
    |s.verifications| <= MAX_VERIFICATIONS && HandlesDiffer(s.verifications)
  }

  lemma RetainedVerifications(host: Host, s: State, v: Verification)
    requires VerificationsOk(s)
    ensures var (t, handle) := VerificationRetained(host, s, v);
      && VerificationsOk(t)
      && v.(handle := handle) in t.verifications
      && forall w | w in t.verifications :: w in s.verifications || w == v.(handle := handle)
  {
    var handle := HandleOf(host, v.candidateDigest);
    KeptVerifications(s.verifications, handle);
    hide Others, Newest;
    var kept := Newest(Others(s.verifications, handle));
    var all := kept + [v.(handle := handle)];
    assert all[|kept|] in all;
    assert forall w | w in all :: w in kept || w == v.(handle := handle);
    assert forall i | 0 <= i < |kept| :: kept[i] in kept;
    assert HandlesDiffer(all);
  }

  lemma KeptVerifications(vs: seq<Verification>, handle: Text)
    requires HandlesDiffer(vs)
    ensures var kept := Newest(Others(vs, handle));
      && |kept| < MAX_VERIFICATIONS && HandlesDiffer(kept)
      && forall w | w in kept :: w in vs && w.handle != handle
  {
    var others := Others(vs, handle);
    OthersAre(vs, handle);
    NewestAre(others);
    hide Others, Newest;
    var kept := Newest(others);
    forall i | 0 <= i < |kept|
      ensures kept[i] == others[|others| - |kept| + i] && kept[i] in others
    {
    }
  }

  lemma TakenVerifications(s: State, handle: Text, expired: bool)
    requires VerificationsOk(s)
    ensures var (t, r) := VerificationTaken(s, handle, expired);
      && VerificationsOk(t)
      && (r.Ok? ==> r.value in s.verifications && r.value.handle == handle)
      && (forall w | w in t.verifications :: w in s.verifications)
      && forall w | w in t.verifications :: w.handle != handle
  {
    var found := HandlePosition(s.verifications, handle);
    NoHandle(s.verifications, handle);
    if found.Some? {
      var p := found.value;
      var rest := s.verifications[..p] + s.verifications[p + 1..];
      assert forall i | 0 <= i < |rest| :: rest[i] == s.verifications[if i < p then i else i + 1];
    }
  }

  lemma {:induction false} NoHandle(vs: seq<Verification>, handle: Text)
    ensures HandlePosition(vs, handle).None? ==> forall v | v in vs :: v.handle != handle
  {
    if vs != [] {
      NoHandle(vs[1..], handle);
      assert vs == [vs[0]] + vs[1..];
    }
  }

  predicate TouchesVerifications(step: Step) {
    step.RetainVerification? || step.TakeVerification?
  }

  lemma OthersKeepVerifications(host: Host, s: State, step: Step)
    requires !TouchesVerifications(step)
    ensures Next(host, s, step).0.verifications in {s.verifications, []}
  {
    hide ApplyAll, EditedScene, AdmittedColours, PacketWindow.Retain, Handed, MayReserve, Check;
  }

  lemma StepKeepsVerifications(host: Host, s: State, step: Step)
    requires VerificationsOk(s)
    ensures VerificationsOk(Next(host, s, step).0)
    ensures forall v | v in Next(host, s, step).0.verifications ::
      v in s.verifications ||
        (step.RetainVerification? && v == step.verification.(handle := HandleOf(host, v.candidateDigest)))
  {
    if step.RetainVerification? {
      RetainedVerifications(host, s, step.verification);
    } else if step.TakeVerification? {
      TakenVerifications(s, step.handle, step.expired);
    } else {
      OthersKeepVerifications(host, s, step);
    }
  }

  // ------------------------------------------------------------ disposal and packets

  /** After disposal only verifications can still be kept. */
  predicate Emptied(s: State) {
    s.disposed ==> s.intent.None? && s.savePlan.None? && s.exportPlan.None? && s.packets == []
  }

  lemma StepKeepsEmptied(host: Host, s: State, step: Step)
    requires Emptied(s)
    ensures Emptied(Next(host, s, step).0)
  {
    hide ApplyAll, EditedScene, AdmittedColours, PacketWindow.Retain, Others, Newest, Handed, MayReserve, Check;
    if s.disposed {
      DisposedRefuses(host, s, step);
    }
  }

  /**
   What a disposed session answers: every request but those about verifications is refused and changes
   nothing else.
  */
  lemma DisposedRefuses(host: Host, s: State, step: Step)
    requires s.disposed && Emptied(s)
    ensures var (t, outcome) := Next(host, s, step);
      && t.(verifications := s.verifications) == s
      && (!TouchesVerifications(step) ==> t == s || step.Dispose?)
      && match outcome
         case Changed(r) => r == Err(ContextStale)
         case PlanOf(r) => r == Err(ContextStale)
         case PacketOf(r) => r == Err(ContextStale)
         case ReservationOf(r) => r == Err(ContextStale)
         case _ => true
  {
    hide ApplyAll, Others, Newest;
  }

  function AcceptedPacket(outcome: Outcome): seq<PacketWindow.Packet> {
    if outcome.PacketOf? && outcome.packet.Ok? then [outcome.packet.value] else []
  }

  lemma StepRetainsPackets(host: Host, s: State, step: Step)
    ensures var (t, outcome) := Next(host, s, step);
      && (forall p | p in AcceptedPacket(outcome) :: |p.json| <= PacketWindow.MAX_PACKET_BYTES)
      && (!t.disposed && AcceptedPacket(outcome) == [] ==> t.packets == s.packets)
      && (AcceptedPacket(outcome) != [] ==> t.packets == PacketWindow.Retain(s.packets, AcceptedPacket(outcome)[0]))
  {
    hide ApplyAll, EditedScene, AdmittedColours, PacketWindow.Retain, Others, Newest, Handed, MayReserve, Check;
  }

  // ------------------------------------------------------------ runs

  /** A run of a session: its states, and the step taken from each but the last. */
  datatype Run = Run(host: Host, states: seq<State>, steps: seq<Step>) {
    ghost predicate Valid() {
      && |states| == |steps| + 1
      && (exists sessionId, scene :: states[0] == Initial(host, sessionId, scene))
      && forall i | 0 <= i < |steps| :: states[i + 1] == Next(host, states[i], steps[i]).0
    }

    function Outcome(i: nat): Outcome
      requires i < |steps| && i < |states|
    {
      Next(host, states[i], steps[i]).1
    }
  }

  lemma RunStep(run: Run, i: nat)
    requires run.Valid() && i < |run.steps|
    ensures run.states[i + 1] == Next(run.host, run.states[i], run.steps[i]).0
  {
  }

  lemma {:induction false} RunAdvances(run: Run, i: nat, j: nat)
    requires run.Valid() && i <= j <= |run.steps|
    ensures var s, t := run.states[i], run.states[j];
      && t.sessionId == s.sessionId && s.revision <= t.revision && (s.disposed ==> t.disposed)
      && (t.revision == s.revision ==> t.scene == s.scene && t.digest == s.digest && t.canonicalJson == s.canonicalJson)
    decreases j - i
  {
    hide Next;
    if i < j {
      RunAdvances(run, i, j - 1);
      StepAdvances(run.host, run.states[j - 1], run.steps[j - 1]);
      RunStep(run, j - 1);
    }
  }

  lemma {:induction false} RunKeepsInvariant(run: Run, i: nat)
    requires run.Valid() && i <= |run.steps|
    ensures VerificationsOk(run.states[i]) && Emptied(run.states[i])
  {
    hide Next;
    if i > 0 {
      RunKeepsInvariant(run, i - 1);
      StepKeepsVerifications(run.host, run.states[i - 1], run.steps[i - 1]);
      StepKeepsEmptied(run.host, run.states[i - 1], run.steps[i - 1]);
      RunStep(run, i - 1);
    }
  }

  /** In every state of every run the digest is that of the current scene. */
  lemma {:induction false} DigestFollowsScene(run: Run, i: nat)
    requires run.Valid() && i <= |run.steps|
    ensures Synced(run.host, run.states[i])
  {
    hide Next;
    if i > 0 {
      DigestFollowsScene(run, i - 1);
      StaysSynced(run.host, run.states[i - 1], run.steps[i - 1]);
      RunStep(run, i - 1);
    }
  }

  /** A condition that holds now but not at first came to hold at some step, and has held since. */
  lemma {:induction false} LastRise(flags: seq<bool>, n: nat) returns (j: nat)
    requires n < |flags| && !flags[0] && flags[n]
    ensures j < n && !flags[j] && forall i | j < i <= n :: flags[i]
    decreases n
  {
    if flags[n - 1] {
      j := LastRise(flags, n - 1);
    } else {
      j := n - 1;
    }
  }

  // ------------------------------------------------------------ plans

  function PlanFlags(run: Run, kind: PlanKind, p: Plan): (flags: seq<bool>)
    ensures |flags| == |run.states|
    ensures forall i | 0 <= i < |flags| :: flags[i] <==> HeldPlan(run.states[i], kind) == Some(p)
  {
    seq(|run.states|, i requires 0 <= i < |run.states| => HeldPlan(run.states[i], kind) == Some(p))
  }

  ghost predicate HandsOut(run: Run, k: nat, kind: PlanKind, p: Plan)
    requires |run.states| == |run.steps| + 1
  {
    && k < |run.steps|
    && run.steps[k].TakePlan? && run.steps[k].kind == kind
    && run.Outcome(k) == PlanOf(Ok(p))
  }

  ghost predicate Makes(run: Run, j: nat, kind: PlanKind, p: Plan)
    requires |run.states| == |run.steps| + 1
  {
    && j < |run.steps|
    && run.steps[j].RetainPlan? && run.steps[j].kind == kind == p.kind
    && run.Outcome(j) == PlanOf(Ok(p))
    && MadeFrom(run.host, run.states[j], p)
  }

  lemma HandedOutWasHeld(run: Run, k: nat, kind: PlanKind, p: Plan)
    requires run.Valid() && HandsOut(run, k, kind, p)
    ensures !run.states[k].disposed && HeldPlan(run.states[k], kind) == Some(p) && p.revision == run.states[k].revision
    ensures HeldPlan(run.states[k + 1], kind).None?
  {
    var s := run.states[k];
    assert !s.disposed;
    TakeEmpties(run.host, s, run.steps[k]);
  }

  /**
   A plan that is handed out was made from the evidence of an earlier state, and between the two the
   plan stayed in its slot, the session stayed open, and the revision and the scene stayed the same.
   */
  lemma HandedOutPlanIsCurrent(run: Run, k: nat, kind: PlanKind, p: Plan) returns (j: nat)
    requires run.Valid() && HandsOut(run, k, kind, p)
    ensures j < k && Makes(run, j, kind, p)
    ensures forall i | j < i <= k :: HeldPlan(run.states[i], kind) == Some(p)
    ensures forall i | j <= i <= k :: !run.states[i].disposed && run.states[i].revision == p.revision
    ensures forall i | j <= i <= k :: run.states[i].scene == run.states[j].scene
  {
    hide Next;
    HandedOutWasHeld(run, k, kind, p);
    j := LastRise(PlanFlags(run, kind, p), k);
    RunStep(run, j);
    PlanRises(run.host, run.states[j], run.steps[j], kind, p);
    RunAdvances(run, j, k);
    forall i | j <= i <= k
      ensures !run.states[i].disposed && run.states[i].revision == p.revision
      ensures run.states[i].scene == run.states[j].scene
    {
      RunAdvances(run, j, i);
      RunAdvances(run, i, k);
    }
  }

  /** Each plan that is handed out was made after the previous one was: none is handed out twice. */
  lemma PlansAreOneShot(run: Run, k: nat, m: nat, kind: PlanKind, p: Plan, q: Plan) returns (j: nat)
    requires run.Valid() && k < m && HandsOut(run, k, kind, p) && HandsOut(run, m, kind, q)
    ensures k < j < m && Makes(run, j, kind, q)
  {
    HandedOutWasHeld(run, k, kind, p);
    j := HandedOutPlanIsCurrent(run, m, kind, q);
    assert HeldPlan(run.states[k + 1], kind) != Some(q);
    assert run.steps[k].TakePlan? && run.steps[j].RetainPlan?;
  }

  // ------------------------------------------------------------ reservations

  function IntentFlags(run: Run, r: Reservation): (flags: seq<bool>)
    ensures |flags| == |run.states|
    ensures forall i | 0 <= i < |flags| :: flags[i] <==> run.states[i].intent == Some(r)
  {
    seq(|run.states|, i requires 0 <= i < |run.states| => run.states[i].intent == Some(r))
  }

  /**
   A reservation validates only in the state it was made in or one that no edit, disposal, cancellation
   or newer reservation separates from it.
   */
  lemma ValidReservationIsCurrent(run: Run, n: nat, r: Reservation) returns (j: nat)
    requires run.Valid() && n <= |run.steps| && Validated(run.states[n], r).Ok?
    ensures j < n && run.steps[j].Begin? && run.Outcome(j) == ReservationOf(Ok(r))
    ensures forall i | j < i <= n :: run.states[i].intent == Some(r)
    ensures forall i | j <= i <= n :: !run.states[i].disposed && run.states[i].revision == r.revision
    ensures forall i | j <= i <= n :: run.states[i].scene == run.states[j].scene && run.states[i].digest == r.digest
  {
    hide Next;
    assert run.states[n].intent == Some(r) && run.states[n].revision == r.revision && !run.states[n].disposed;
    j := LastRise(IntentFlags(run, r), n);
    RunStep(run, j);
    IntentRises(run.host, run.states[j], run.steps[j], r);
    forall i | j <= i <= n
      ensures !run.states[i].disposed && run.states[i].revision == r.revision
        && run.states[i].scene == run.states[j].scene && run.states[i].digest == r.digest
    {
      RunAdvances(run, j, i);
      RunAdvances(run, i, n);
    }
  }

  // ------------------------------------------------------------ verifications

  function VerificationFlags(run: Run, v: Verification): (flags: seq<bool>)
    ensures |flags| == |run.states|
    ensures forall i | 0 <= i < |flags| :: flags[i] <==> v in run.states[i].verifications
  {
    seq(|run.states|, i requires 0 <= i < |run.states| => v in run.states[i].verifications)
  }

  ghost predicate HandsOutVerification(run: Run, k: nat, v: Verification)
    requires |run.states| == |run.steps| + 1
  {
    k < |run.steps| && run.steps[k].TakeVerification? && run.Outcome(k) == VerificationOf(Ok(v))
  }

  ghost predicate Keeps(run: Run, j: nat, v: Verification)
    requires |run.states| == |run.steps| + 1
  {
    && j < |run.steps|
    && run.steps[j].RetainVerification?
    && v == run.steps[j].verification.(handle := HandleOf(run.host, v.candidateDigest))
  }

  /** A successful batch or binding, or disposal. */
  predicate Invalidates(host: Host, s: State, step: Step) {
    || (step.Edits? && step.edits != [] && Edited(host, s, step.edits).1.Ok?)
    || (step.Bind? && Bound(host, s, step.generation, step.bindings).1.Ok?)
    || step.Dispose?
  }

  lemma InvalidationClears(host: Host, s: State, step: Step)
    requires Invalidates(host, s, step)
    ensures Next(host, s, step).0.verifications == []
  {
    hide ApplyAll, AdmittedColours;
  }

  lemma HandedOutVerification(run: Run, k: nat, v: Verification)
    requires run.Valid() && HandsOutVerification(run, k, v)
    ensures v in run.states[k].verifications && v.handle == run.steps[k].handle
    ensures forall w | w in run.states[k + 1].verifications :: w.handle != v.handle
  {
    RunKeepsInvariant(run, k);
    TakenVerifications(run.states[k], run.steps[k].handle, run.steps[k].expired);
  }

  /** A verification that is handed out was kept earlier, and nothing invalidated it in between. */
  lemma HandedOutVerificationIsCurrent(run: Run, k: nat, v: Verification) returns (j: nat)
    requires run.Valid() && HandsOutVerification(run, k, v)
    ensures j < k && Keeps(run, j, v)
    ensures forall i | j < i <= k :: v in run.states[i].verifications
    ensures forall i | j <= i < k :: !Invalidates(run.host, run.states[i], run.steps[i])
  {
    hide Next, VerificationsOk, Invalidates;
    HandedOutVerification(run, k, v);
    j := LastRise(VerificationFlags(run, v), k);
    RunKeepsInvariant(run, j);
    StepKeepsVerifications(run.host, run.states[j], run.steps[j]);
    RunStep(run, j);
    forall i | j <= i < k
      ensures !Invalidates(run.host, run.states[i], run.steps[i])
    {
      RunStep(run, i);
      assert v in run.states[i + 1].verifications;
      if Invalidates(run.host, run.states[i], run.steps[i]) {
        InvalidationClears(run.host, run.states[i], run.steps[i]);
      }
    }
  }

  /** After a verification is handed out, its handle works again only once it has been kept again. */
  lemma VerificationsAreOneShot(run: Run, k: nat, m: nat, v: Verification, w: Verification) returns (j: nat)
    requires run.Valid() && k < m && HandsOutVerification(run, k, v) && HandsOutVerification(run, m, w)
    requires v.handle == w.handle
    ensures k < j < m && Keeps(run, j, w)
  {
    HandedOutVerification(run, k, v);
    j := HandedOutVerificationIsCurrent(run, m, w);
    assert w !in run.states[k + 1].verifications;
    assert run.steps[k].TakeVerification? && run.steps[j].RetainVerification?;
  }

  /** `v` is kept, with fewer than `d` verifications behind it. */
  ghost predicate KeptWithin(vs: seq<Verification>, v: Verification, d: nat) {
    exists p :: 0 <= p < |vs| && vs[p] == v && |vs| - p <= d
  }

  lemma {:induction false} OthersSplit(a: seq<Verification>, b: seq<Verification>, handle: Text)
    ensures Others(a + b, handle) == Others(a, handle) + Others(b, handle)
    ensures |Others(b, handle)| <= |b|
    decreases |a|, |b|
  {
    if a != [] {
      OthersSplit(a[1..], b, handle);
      assert (a + b)[1..] == a[1..] + b;
    } else {
      assert a + b == b;
      if b != [] {
        OthersSplit([], b[1..], handle);
      }
    }
  }

  lemma OthersKeepPlace(vs: seq<Verification>, handle: Text, v: Verification, d: nat)
    requires KeptWithin(vs, v, d) && v.handle != handle
    ensures KeptWithin(Others(vs, handle), v, d)
  {
    var p :| 0 <= p < |vs| && vs[p] == v && |vs| - p <= d;
    var before, after := Others(vs[..p], handle), Others(vs[p + 1..], handle);
    OthersSplit(vs[..p], [v] + vs[p + 1..], handle);
    OthersSplit([v], vs[p + 1..], handle);
    assert Others([v], handle) == [v];
    assert vs == vs[..p] + ([v] + vs[p + 1..]);
    hide Others;
    var kept := before + ([v] + after);
    assert kept[|before|] == v && |kept| - |before| <= d;
  }

  lemma NewestKeepPlace(vs: seq<Verification>, v: Verification, d: nat)
    requires KeptWithin(vs, v, d) && d < MAX_VERIFICATIONS
    ensures KeptWithin(Newest(vs), v, d)
  {
    NewestAre(vs);
    NewestCount(vs);
    hide Newest;
    var kept := Newest(vs);
    var p :| 0 <= p < |vs| && vs[p] == v && |vs| - p <= d;
    var gone := |vs| - |kept|;
    assert kept[p - gone] == vs[p];
  }

  lemma {:induction false} NewestCount(vs: seq<Verification>)
    ensures |Newest(vs)| == if |vs| < MAX_VERIFICATIONS then |vs| else MAX_VERIFICATIONS - 1
  {
    if |vs| > MAX_VERIFICATIONS {
      NewestCount(vs[1..]);
    }
  }

  lemma AppendKeepsPlace(vs: seq<Verification>, w: Verification, v: Verification, d: nat)
    requires KeptWithin(vs, v, d)
    ensures KeptWithin(vs + [w], v, d + 1)
  {
    var p :| 0 <= p < |vs| && vs[p] == v && |vs| - p <= d;
    assert (vs + [w])[p] == v;
  }

  lemma RemovalKeepsPlace(vs: seq<Verification>, q: nat, v: Verification, d: nat)
    requires KeptWithin(vs, v, d) && q < |vs| && vs[q] != v
    ensures KeptWithin(vs[..q] + vs[q + 1..], v, d)
  {
    var p :| 0 <= p < |vs| && vs[p] == v && |vs| - p <= d;
    var rest := vs[..q] + vs[q + 1..];
    assert rest[if p < q then p else p - 1] == v;
  }

  /** The step is about this handle. */
  predicate Uses(host: Host, step: Step, handle: Text) {
    || (step.TakeVerification? && step.handle == handle)
    || (step.RetainVerification? && HandleOf(host, step.verification.candidateDigest) == handle)
  }

  lemma UntouchedVerifications(host: Host, s: State, step: Step)
    requires !Invalidates(host, s, step) && !TouchesVerifications(step)
    ensures Next(host, s, step).0.verifications == s.verifications
  {
    if step.Edits? {
      EditsAreAllOrNothing(host, s, step.edits);
    }
    if step.Bind? {
      BindingsAreAllOrNothing(host, s, step.generation, step.bindings);
    }
    hide Edited, Bound, PacketWindow.Retain, Handed, MayReserve, Check;
  }

  /** A step that neither invalidates nor is about its handle moves a verification back by one place at most. */
  lemma StepKeepsPlace(host: Host, s: State, step: Step, v: Verification, d: nat)
    requires !Invalidates(host, s, step) && !Uses(host, step, v.handle) && KeptWithin(s.verifications, v, d)
    requires step.RetainVerification? ==> d < MAX_VERIFICATIONS
    ensures KeptWithin(Next(host, s, step).0.verifications, v, if step.RetainVerification? then d + 1 else d)
  {
    hide KeptWithin, Others, Newest;
    if step.RetainVerification? {
      var handle := HandleOf(host, step.verification.candidateDigest);
      OthersKeepPlace(s.verifications, handle, v, d);
      NewestKeepPlace(Others(s.verifications, handle), v, d);
      AppendKeepsPlace(Newest(Others(s.verifications, handle)), step.verification.(handle := handle), v, d);
    } else if step.TakeVerification? {
      var found := HandlePosition(s.verifications, step.handle);
      if found.Some? {
        RemovalKeepsPlace(s.verifications, found.value, v, d);
      }
    } else {
      UntouchedVerifications(host, s, step);
    }
  }

  /** How many of the steps from `i` up to `k` keep a verification. */
  function KeepsBetween(run: Run, i: nat, k: nat): nat
    requires i <= k <= |run.steps|
    decreases k
  {
    if k == i then 0 else KeepsBetween(run, i, k - 1) + if run.steps[k - 1].RetainVerification? then 1 else 0
  }

  lemma {:induction false} KeepsGrow(run: Run, i: nat, j: nat, k: nat)
    requires i <= j <= k <= |run.steps|
    ensures KeepsBetween(run, i, j) <= KeepsBetween(run, i, k)
    decreases k
  {
    if j < k {
      KeepsGrow(run, i, j, k - 1);
    }
  }

  lemma {:induction false} VerificationStays(run: Run, j: nat, k: nat, v: Verification)
    requires run.Valid() && Keeps(run, j, v) && j < k <= |run.steps|
    requires forall i | j < i < k ::
      !Invalidates(run.host, run.states[i], run.steps[i]) && !Uses(run.host, run.steps[i], v.handle)
    requires KeepsBetween(run, j + 1, k) < MAX_VERIFICATIONS
    ensures KeptWithin(run.states[k].verifications, v, 1 + KeepsBetween(run, j + 1, k))
    decreases k
  {
    hide Next, Invalidates, Uses;
    if k == j + 1 {
      RunStep(run, j);
      KeptAtOnce(run.host, run.states[j], run.steps[j], v);
    } else {
      KeepsGrow(run, j + 1, k - 1, k);
      VerificationStays(run, j, k - 1, v);
      StepKeepsPlace(run.host, run.states[k - 1], run.steps[k - 1], v, 1 + KeepsBetween(run, j + 1, k - 1));
      RunStep(run, k - 1);
    }
  }

  lemma KeptAtOnce(host: Host, s: State, step: Step, v: Verification)
    requires step.RetainVerification? && v == step.verification.(handle := HandleOf(host, v.candidateDigest))
    ensures KeptWithin(Next(host, s, step).0.verifications, v, 1)
  {
    hide Others, Newest;
    var vs := Next(host, s, step).0.verifications;
    assert vs[|vs| - 1] == v;
  }

  lemma HandleFindsIt(vs: seq<Verification>, v: Verification, d: nat)
    requires HandlesDiffer(vs) && KeptWithin(vs, v, d)
    ensures HandlePosition(vs, v.handle).Some? && vs[HandlePosition(vs, v.handle).value] == v
  {
    NoHandle(vs, v.handle);
    hide HandlePosition;
    var p :| 0 <= p < |vs| && vs[p] == v && |vs| - p <= d;
    assert vs[p] in vs;
  }

  /**
   A verification is handed out under its handle, in time, whenever since it was kept nothing has
   invalidated it, no step was about its handle, and at most three others were kept. Whether the session
   is disposed does not matter: only a disposal in between does.
   */
  lemma KeptIsHandedOut(run: Run, j: nat, k: nat, v: Verification)
    requires run.Valid() && Keeps(run, j, v) && j < k < |run.steps|
    requires forall i | j < i < k ::
      !Invalidates(run.host, run.states[i], run.steps[i]) && !Uses(run.host, run.steps[i], v.handle)
    requires KeepsBetween(run, j + 1, k) < MAX_VERIFICATIONS
    requires run.steps[k] == TakeVerification(v.handle, false)
    ensures run.Outcome(k) == VerificationOf(Ok(v))
  {
    VerificationStays(run, j, k, v);
    RunKeepsInvariant(run, k);
    HandleFindsIt(run.states[k].verifications, v, 1 + KeepsBetween(run, j + 1, k));
    hide HandlePosition, KeptWithin;
  }

  /** So a disposed session still keeps a verification and hands it out. */
  lemma DisposedKeepsVerifications(run: Run, j: nat, v: Verification)
    requires run.Valid() && Keeps(run, j, v) && j + 1 < |run.steps| && run.states[j].disposed
    requires run.steps[j + 1] == TakeVerification(v.handle, false)
    ensures run.Outcome(j + 1) == VerificationOf(Ok(v)) && run.states[j + 1].disposed
  {
    KeptIsHandedOut(run, j, j + 1, v);
    RunAdvances(run, j, j + 1);
    hide Next;
  }

  // ------------------------------------------------------------ packets

  /** The packets accepted in the first `n` steps. */
  function Accepted(run: Run, n: nat): seq<PacketWindow.Packet>
    requires n <= |run.steps| && |run.states| == |run.steps| + 1
  {
    if n == 0 then [] else Accepted(run, n - 1) + AcceptedPacket(run.Outcome(n - 1))
  }

  lemma {:induction false} PacketsAreRetained(run: Run, n: nat)
    requires run.Valid() && n <= |run.steps|
    ensures forall p | p in Accepted(run, n) :: |p.json| <= PacketWindow.MAX_PACKET_BYTES
    ensures !run.states[n].disposed ==> run.states[n].packets == PacketWindow.RetainAll(Accepted(run, n))
  {
    hide Next, PacketWindow.Retain, AcceptedPacket;
    if n > 0 {
      PacketsAreRetained(run, n - 1);
      var s, step := run.states[n - 1], run.steps[n - 1];
      StepRetainsPackets(run.host, s, step);
      StepAdvances(run.host, s, step);
      RunStep(run, n - 1);
      AcceptedIsOne(run.Outcome(n - 1));
      var before, more := Accepted(run, n - 1), AcceptedPacket(run.Outcome(n - 1));
      assert Accepted(run, n) == before + more;
      if more == [] {
        assert before + more == before;
      } else {
        assert before + more == before + [more[0]];
        RetainAllAppend(before, more[0]);
      }
    }
  }

  lemma AcceptedIsOne(outcome: Outcome)
    ensures AcceptedPacket(outcome) == [] || AcceptedPacket(outcome) == [AcceptedPacket(outcome)[0]]
  {
  }

  lemma RetainAllAppend(history: seq<PacketWindow.Packet>, p: PacketWindow.Packet)
    ensures PacketWindow.RetainAll(history + [p]) == PacketWindow.Retain(PacketWindow.RetainAll(history), p)
  {
    var all := history + [p];
    assert all[..|all| - 1] == history && all[|all| - 1] == p;
  }

  /** An open session holds the longest suffix of all accepted packets that fits the limits. */
  lemma PacketsAreOptimal(run: Run, n: nat)
    requires run.Valid() && n <= |run.steps| && !run.states[n].disposed
    ensures PacketWindow.LongestFittingSuffix(run.states[n].packets, Accepted(run, n))
  {
    PacketsAreRetained(run, n);
    PacketWindow.WindowIsOptimal(Accepted(run, n));
  }

  /** Once disposed, a session hands out no plan, accepts no packet and changes no scene. */
  lemma DisposalIsFinal(run: Run, k: nat, i: nat)
    requires run.Valid() && k <= i < |run.steps| && run.states[k].disposed
    ensures run.states[i].disposed && run.states[i].scene == run.states[k].scene
    ensures run.states[i].revision == run.states[k].revision
    ensures match run.Outcome(i)
            case Changed(r) => r == Err(ContextStale)
            case PlanOf(r) => r == Err(ContextStale)
            case PacketOf(r) => r == Err(ContextStale)
            case ReservationOf(r) => r == Err(ContextStale)
            case _ => true
    decreases i - k
  {
    hide Next;
    RunAdvances(run, k, i);
    RunKeepsInvariant(run, i);
    DisposedRefuses(run.host, run.states[i], run.steps[i]);
    if k < i {
      DisposalIsFinal(run, k, i - 1);
      RunAdvances(run, k, i - 1);
      RunKeepsInvariant(run, i - 1);
      RunStep(run, i - 1);
      DisposedRefuses(run.host, run.states[i - 1], run.steps[i - 1]);
    }
  }

  // ------------------------------------------------------------ runs of the class

  /** Takes one step on the session itself. */
  method Perform(session: SceneSession, step: Step) returns (outcome: Outcome)
    modifies session
    ensures (session.Value(), outcome) == Next(session.host, old(session.Value()), step)
  {
    hide Edited, Bound, SavePlanned, ExportPlanned, SaveTaken, ExportTaken, PacketRetained;
    hide VerificationRetained, VerificationTaken, Reserved, Cancelled, Validated, Disposed;
    match step {
      case Edits(edits) => var r := session.ApplyEdits(edits); outcome := Changed(r);
      case Bind(generation, bindings) => var r := session.BindTokens(generation, bindings); outcome := Changed(r);
      case Compile(evidence) =>
        if !session.disposed {
          session.evidence := evidence;
        }
        outcome := Nothing;
      case RetainPlan(kind, placed, id) => outcome := PerformRetain(session, kind, placed, id);
      case TakePlan(kind, id, expired) => outcome := PerformTake(session, kind, id, expired);
      case RetainPacket(id, kind, json, claims) =>
        var r := session.RetainPacket(id, kind, json, claims);
        outcome := PacketOf(r);
      case RetainVerification(v) => var handle := session.RetainVerification(v); outcome := HandleTo(handle);
      case TakeVerification(handle, expired) =>
        var r := session.TakeVerification(handle, expired);
        outcome := VerificationOf(r);
      case Begin(expected, client, id) =>
        var r := session.BeginReplacementIntent(expected, client, id);
        outcome := ReservationOf(r);
      case Cancel(reservation) => session.CancelReplacementIntent(reservation); outcome := Nothing;
      case Validate(reservation) => var r := session.ValidateReplacementIntent(reservation); outcome := Changed(r);
      case Dispose => session.Dispose(); outcome := Nothing;
    }
  }

  method PerformRetain(session: SceneSession, kind: PlanKind, placed: Reply<Text>, id: Text) returns (outcome: Outcome)
    modifies session
    ensures (session.Value(), outcome) == Next(session.host, old(session.Value()), RetainPlan(kind, placed, id))
  {
    hide SavePlanned, ExportPlanned;
    var r: Reply<Plan>;
    if kind == SaveJson {
      r := session.RetainSavePlan(placed, id);
    } else {
      r := session.RetainExportPlan(placed, id);
    }
    return PlanOf(r);
  }

  method PerformTake(session: SceneSession, kind: PlanKind, id: Text, expired: bool) returns (outcome: Outcome)
    modifies session
    ensures (session.Value(), outcome) == Next(session.host, old(session.Value()), TakePlan(kind, id, expired))
  {
    hide SaveTaken, ExportTaken;
    var r: Reply<Plan>;
    if kind == SaveJson {
      r := session.TakeSavePlan(id, expired);
    } else {
      r := session.TakeExportPlan(id, expired);
    }
    return PlanOf(r);
  }

  /** Any steps on a new session make a run, so the results about runs are about the class. */
  method Drive(host: Host, sessionId: Text, scene: Scene, steps: seq<Step>)
      returns (session: SceneSession, outcomes: seq<Outcome>, ghost run: Run)
    ensures run.Valid() && run.host == host && run.steps == steps && run.states[0] == Initial(host, sessionId, scene)
    ensures fresh(session) && session.Value() == run.states[|steps|]
    ensures |outcomes| == |steps| && forall i | 0 <= i < |steps| :: outcomes[i] == run.Outcome(i)
  {
    hide Next, Initial;
    session := new SceneSession(host, sessionId, scene);
    outcomes := [];
    ghost var states := [session.Value()];
    for n := 0 to |steps|
      invariant session.host == host && fresh(session)
      invariant |states| == n + 1 && states[n] == session.Value() && states[0] == Initial(host, sessionId, scene)
      invariant |outcomes| == n
      invariant forall i | 0 <= i < n :: states[i + 1] == Next(host, states[i], steps[i]).0
      invariant forall i | 0 <= i < n :: outcomes[i] == Next(host, states[i], steps[i]).1
    {
      var outcome := Perform(session, steps[n]);
      outcomes := outcomes + [outcome];
      states := states + [session.Value()];
    }
    run := Run(host, states, steps);
  }
}
