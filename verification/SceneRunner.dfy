/** The scene runner's execution queue. */
module SceneRunner {
  /*
   The scene runner's execution queue: a latest-ticket-wins slot guarded by a mutex and a
   condition variable, an epoch counter outside the mutex, and a final `close`.

   `Shared` holds the fields of the controller. Each lock region and each atomic access is a
   function on it; `ExecutionController` performs them in place. `State` adds any number of
   concurrent calls, and `Apply` interleaves them.
  */

  import opened Options
  import opened Tickets

  /** The largest value of the epoch and ticket counters (both are 64-bit unsigned). */
  const MAX_COUNTER: nat := 0xFFFF_FFFF_FFFF_FFFF

  datatype Shared = Shared(
    epoch: nat,
    unavailable: bool,
    activeCancel: Option<nat>,     // the request whose cancel token is installed
    isActive: bool,
    pendingTicket: Option<nat>,
    nextTicket: nat)

  const FRESH: Shared := Shared(0, false, None, false, None, 0)

  /** What a request learns when it leaves, or goes to sleep inside, its lock region. */
  datatype Verdict = Exhausted | Superseded | Sleep | StaleEpoch | Activate

  // ------------------------------------------------------------ regions

  /** From a test of the wait loop to the end of the region. */
  function TryActivate(sh: Shared, ticket: nat, epoch: nat): (Shared, Verdict) {
    if sh.pendingTicket != Some(ticket) then (sh, Superseded)
    else if sh.isActive then (sh, Sleep)
    else if sh.epoch != epoch then (sh, StaleEpoch)
    else (sh.(isActive := true, pendingTicket := None), Activate)
  }

  /** The first pass through the region: draw a ticket, publish it, test the loop once. */
  function DrawAndTry(sh: Shared, epoch: nat): (Shared, Verdict) {
    if sh.nextTicket == MAX_COUNTER then (sh, Exhausted)
    else
      var drawn := sh.(nextTicket := sh.nextTicket + 1, pendingTicket := Some(sh.nextTicket));
      TryActivate(drawn, sh.nextTicket, epoch)
  }

  function BumpEpoch(sh: Shared): Shared {
    if sh.epoch < MAX_COUNTER then sh.(epoch := sh.epoch + 1) else sh
  }

  function RemoveToken(sh: Shared, owner: nat): Shared {
    if sh.activeCancel == Some(owner) then sh.(activeCancel := None) else sh
  }

  /** The controller, updated in place one region at a time. Tokens are named by their request. */
  class ExecutionController {
    var epoch: nat
    var unavailable: bool
    var activeCancel: Option<nat>
    var isActive: bool
    var pendingTicket: Option<nat>
    var nextTicket: nat

    function View(): Shared
      reads this
    {
      Shared(epoch, unavailable, activeCancel, isActive, pendingTicket, nextTicket)
    }

    constructor ()
      ensures View() == FRESH
    {
      epoch, unavailable, activeCancel := 0, false, None;
      isActive, pendingTicket, nextTicket := false, None, 0;
    }

    method MarkUnavailable()
      modifies `unavailable
      ensures View() == old(View()).(unavailable := true)
    {
      unavailable := true;
    }

    method Bump() returns (ok: bool)
      modifies `epoch
      ensures ok <==> old(epoch) < MAX_COUNTER
      ensures View() == BumpEpoch(old(View()))
    {
      ok := epoch < MAX_COUNTER;
      if ok {
        epoch := epoch + 1;
      }
    }

    method Attempt(ticket: nat, epochRead: nat) returns (verdict: Verdict)
      modifies `isActive, `pendingTicket
      ensures (View(), verdict) == TryActivate(old(View()), ticket, epochRead)
    {
      if isActive || pendingTicket != Some(ticket) {
        return if pendingTicket != Some(ticket) then Superseded else Sleep;
      }
      if epoch != epochRead {
        return StaleEpoch;
      }
      isActive := true;
      pendingTicket := None;
      return Activate;
    }

    method Enter(epochRead: nat) returns (ticket: nat, verdict: Verdict)
      modifies `isActive, `pendingTicket, `nextTicket
      ensures ticket == old(nextTicket)
      ensures (View(), verdict) == DrawAndTry(old(View()), epochRead)
    {
      ticket := nextTicket;
      if ticket == MAX_COUNTER {
        return ticket, Exhausted;
      }
      nextTicket := ticket + 1;
      pendingTicket := Some(ticket);
      verdict := Attempt(ticket, epochRead);
    }

    method Install(owner: nat)
      modifies `activeCancel
      ensures View() == old(View()).(activeCancel := Some(owner))
    {
      activeCancel := Some(owner);
    }

    method Uninstall(owner: nat)
      modifies `activeCancel
      ensures View() == RemoveToken(old(View()), owner)
    {
      if activeCancel == Some(owner) {
        activeCancel := None;
      }
    }

    method Release()
      modifies `isActive
      ensures View() == old(View()).(isActive := false)
    {
      isActive := false;
    }

    method ClearPending()
      modifies `pendingTicket
      ensures View() == old(View()).(pendingTicket := None)
    {
      pendingTicket := None;
    }
  }

  // ------------------------------------------------------------ concurrent calls

  /** What a call returns; `OtherResult` is whatever its child ended with. */
  datatype Outcome = NoneYet | Refused | Cancelled | OtherResult

  /** How far one `execute_batch` call has come. */
  datatype Phase =
    | Started               // nothing read yet
    | EpochRead             // the epoch is read, availability is not
    | Admitted              // availability and size checks passed
    | Waiting               // holds a ticket, inside the wait loop
    | Activated             // owns the slot, token not installed
    | Installed             // token installed, epoch not compared again
    | Compared(stale: bool) // second comparison made, its store not
    | Armed                 // about to test its token and spawn
    | Spawned               // the child process runs
    | Returned              // the inner call is over
    | Uninstalled           // token removed, slot still held
    | Done

  datatype Request = Request(phase: Phase, epoch: nat, ticket: Option<nat>, token: bool, outcome: Outcome)

  /** How far one `cancel_active` or `close` call has come. */
  datatype CancelPhase =
    | Called | Marked | Overflowed | Bumped | Signalled | Cleared | ClosedTrue | ClosedFalse

  /** `saw` is the epoch its `fetch_update` found. */
  datatype Canceller = Canceller(closes: bool, phase: CancelPhase, saw: Option<nat>)

  /** What has happened so far: written by the steps, read by none of them. */
  datatype History = History(
    activations: seq<nat>,     // the tickets activated, in order
    drawnBy: seq<nat>,         // for each ticket, the request that drew it
    holder: Option<nat>,       // the request that owns the slot
    reached: nat,              // the highest epoch published by a call past its token step
    closedAt: Option<nat>)     // the epoch published by the first `close` that could bump

  /** `asleep` is the set of requests parked on the condition variable. */
  datatype State = State(
    sh: Shared,
    reqs: seq<Request>,
    calls: seq<Canceller>,
    asleep: set<nat>,
    past: History)

  const INITIAL: State := State(FRESH, [], [], {}, History([], [], None, 0, None))

  datatype Action =
    | NewRequest
    | LoadEpoch(r: nat)
    | CheckAvailable(r: nat, accepted: bool)
    | Enter(r: nat)
    | WakeSpuriously(r: nat)
    | Recheck(r: nat)
    | Install(r: nat)
    | Compare(r: nat)
    | Arm(r: nat)
    | TestToken(r: nat)
    | ChildEnds(r: nat, cancelled: bool, unreaped: bool)
    | Uninstall(r: nat)
    | Release(r: nat)
    | NewCall(closes: bool)
    | MarkUnavailable(c: nat)
    | Bump(c: nat)
    | MarkOverflow(c: nat)
    | Signal(c: nat)
    | ClearPending(c: nat)
    | CloseReturns(c: nat, ok: bool)

  predicate At(s: State, r: nat, phase: Phase) {
    r < |s.reqs| && s.reqs[r].phase == phase
  }

  predicate CallAt(s: State, c: nat, phase: CancelPhase) {
    c < |s.calls| && s.calls[c].phase == phase
  }

  predicate Enabled(s: State, a: Action) {
    match a
    case NewRequest => true
    case NewCall(_) => true
    case LoadEpoch(r) => At(s, r, Started)
    case CheckAvailable(r, accepted) => At(s, r, EpochRead) && (accepted ==> !s.sh.unavailable)
    case Enter(r) => At(s, r, Admitted)
    case WakeSpuriously(r) => r in s.asleep
    case Recheck(r) => At(s, r, Waiting) && r !in s.asleep && s.reqs[r].ticket.Some?
    case Install(r) => At(s, r, Activated)
    case Compare(r) => At(s, r, Installed)
    case Arm(r) => r < |s.reqs| && s.reqs[r].phase.Compared?
    case TestToken(r) => At(s, r, Armed)
    case ChildEnds(r, cancelled, _) => At(s, r, Spawned) && (cancelled ==> s.reqs[r].token)
    case Uninstall(r) => At(s, r, Returned)
    case Release(r) => At(s, r, Uninstalled)
    case MarkUnavailable(c) => CallAt(s, c, Called) && s.calls[c].closes
    case Bump(c) => c < |s.calls| && s.calls[c].phase == if s.calls[c].closes then Marked else Called
    case MarkOverflow(c) => CallAt(s, c, Overflowed)
    case Signal(c) => CallAt(s, c, Bumped)
    case ClearPending(c) => CallAt(s, c, Signalled)
    case CloseReturns(c, ok) => CallAt(s, c, Cleared) && s.calls[c].closes && (ok ==> !s.sh.isActive)
  }

  function SetReq(s: State, r: nat, q: Request): State
    requires r < |s.reqs|
  {
    s.(reqs := s.reqs[r := q])
  }

  function SetCall(s: State, c: nat, phase: CancelPhase): State
    requires c < |s.calls|
  {
    s.(calls := s.calls[c := s.calls[c].(phase := phase)])
  }

  /** The effect of a region's verdict on the request that ran it. */
  function Settle(s: State, r: nat, sh: Shared, verdict: Verdict): State
    requires r < |s.reqs| && (verdict == Activate ==> s.reqs[r].ticket.Some?)
  {
    var q := s.reqs[r];
    var s1 := s.(sh := sh);
    match verdict
    case Exhausted => SetReq(s1, r, q.(phase := Done, outcome := Refused))
    case Superseded | StaleEpoch => SetReq(s1, r, q.(phase := Done, outcome := Cancelled))
    case Sleep => SetReq(s1, r, q.(phase := Waiting)).(asleep := s.asleep + {r})
    case Activate =>
      SetReq(s1, r, q.(phase := Activated))
        .(past := s.past.(activations := s.past.activations + [q.ticket.value], holder := Some(r)))
  }

  /** The first region: drawing a ticket notifies every sleeper; an exhausted counter returns before. */
  function EnterStep(s: State, r: nat): State
    requires r < |s.reqs|
  {
    var (sh, verdict) := DrawAndTry(s.sh, s.reqs[r].epoch);
    if verdict == Exhausted then Settle(s, r, sh, verdict)
    else
      var drawn := SetReq(s, r, s.reqs[r].(ticket := Some(s.sh.nextTicket)));
      Settle(drawn.(asleep := {}, past := s.past.(drawnBy := s.past.drawnBy + [r])), r, sh, verdict)
  }

  function BumpStep(s: State, c: nat): State
    requires c < |s.calls|
  {
    var ok := s.sh.epoch < MAX_COUNTER;
    var call := s.calls[c].(phase := if ok then Bumped else Overflowed, saw := Some(s.sh.epoch));
    var first := ok && call.closes && s.past.closedAt.None?;
    s.(calls := s.calls[c := call], sh := BumpEpoch(s.sh),
       past := s.past.(closedAt := if first then Some(s.sh.epoch + 1) else s.past.closedAt))
  }

  /** Stores through the installed token, if there is one. */
  function MarkOwner(s: State): State {
    match s.sh.activeCancel
    case Some(r) => if r < |s.reqs| then SetReq(s, r, s.reqs[r].(token := true)) else s
    case None => s
  }

  /** Records that the call is past its token step. */
  function Publish(s: State, c: nat): State
    requires c < |s.calls|
  {
    var published := if s.calls[c].saw.Some? && s.calls[c].saw.value < MAX_COUNTER then s.calls[c].saw.value + 1 else 0;
    SetCall(s, c, Signalled)
      .(past := s.past.(reached := if published > s.past.reached then published else s.past.reached))
  }

  /** Locks the token slot and stores through it. */
  function SignalStep(s: State, c: nat): State
    requires c < |s.calls|
  {
    Publish(MarkOwner(s), c)
  }

  function Apply(s: State, a: Action): State
    requires Enabled(s, a)
  {
    match a
    case NewRequest => s.(reqs := s.reqs + [Request(Started, 0, None, false, NoneYet)])
    case NewCall(closes) => s.(calls := s.calls + [Canceller(closes, Called, None)])
    case LoadEpoch(r) => SetReq(s, r, s.reqs[r].(phase := EpochRead, epoch := s.sh.epoch))
    case CheckAvailable(r, accepted) =>
      SetReq(s, r, if accepted then s.reqs[r].(phase := Admitted) else s.reqs[r].(phase := Done, outcome := Refused))
    case Enter(r) => EnterStep(s, r)
    case WakeSpuriously(r) => s.(asleep := s.asleep - {r})
    case Recheck(r) =>
      var (sh, verdict) := TryActivate(s.sh, s.reqs[r].ticket.value, s.reqs[r].epoch);
      Settle(s, r, sh, verdict)
    case Install(r) => SetReq(s, r, s.reqs[r].(phase := Installed)).(sh := s.sh.(activeCancel := Some(r)))
    case Compare(r) => SetReq(s, r, s.reqs[r].(phase := Compared(s.sh.epoch != s.reqs[r].epoch)))
    case Arm(r) =>
      SetReq(s, r, s.reqs[r].(phase := Armed, token := s.reqs[r].token || s.reqs[r].phase.stale))
    case TestToken(r) =>
      SetReq(s, r, if s.reqs[r].token then s.reqs[r].(phase := Returned, outcome := Cancelled)
                   else s.reqs[r].(phase := Spawned))
    case ChildEnds(r, cancelled, unreaped) =>
      SetReq(s, r, s.reqs[r].(phase := Returned, outcome := if cancelled then Cancelled else OtherResult))
        .(sh := s.sh.(unavailable := s.sh.unavailable || unreaped))
    case Uninstall(r) => SetReq(s, r, s.reqs[r].(phase := Uninstalled)).(sh := RemoveToken(s.sh, r))
    case Release(r) =>
      SetReq(s, r, s.reqs[r].(phase := Done))
        .(sh := s.sh.(isActive := false), asleep := {}, past := s.past.(holder := None))
    case MarkUnavailable(c) => SetCall(s, c, Marked).(sh := s.sh.(unavailable := true))
    case Bump(c) => BumpStep(s, c)
    case MarkOverflow(c) => SetCall(s, c, Bumped).(sh := s.sh.(unavailable := true))
    case Signal(c) => SignalStep(s, c)
    case ClearPending(c) => SetCall(s, c, Cleared).(sh := s.sh.(pendingTicket := None), asleep := {})
    case CloseReturns(c, ok) => SetCall(s, c, if ok then ClosedTrue else ClosedFalse)
  }

  // ------------------------------------------------------------ the invariant

  predicate OwnsSlot(p: Phase) {
    p.Activated? || OwnsToken(p) || p.Uninstalled?
  }

  predicate OwnsToken(p: Phase) {
    p.Installed? || p.Compared? || p.Armed? || p.Spawned? || p.Returned?
  }

  predicate PastAvailability(p: Phase) {
    p.Admitted? || p.Waiting? || OwnsSlot(p)
  }

  /** Past the second comparison, with nothing left to store. */
  predicate PastComparison(p: Phase) {
    p == Compared(false) || p.Armed? || p.Spawned? || p.Returned?
  }

  predicate HasSignalled(c: Canceller) {
    c.phase.Signalled? || c.phase.Cleared? || c.phase.ClosedTrue? || c.phase.ClosedFalse?
  }

  /** The call's bump went through: it published the epoch after the one it saw. */
  predicate Published(c: Canceller) {
    c.saw.Some? && c.saw.value < MAX_COUNTER
  }

  ghost predicate SharedOk(sh: Shared, past: History) {
    && (sh.isActive <==> past.holder.Some?)
    && sh.nextTicket == |past.drawnBy| <= MAX_COUNTER
    && (sh.pendingTicket.Some? ==> sh.pendingTicket.value + 1 == sh.nextTicket)
    && Increasing(past.activations)
    && (forall t | t in past.activations :: t < sh.nextTicket)
    && (sh.pendingTicket.Some? ==> sh.pendingTicket.value !in past.activations)
    && past.reached <= sh.epoch <= MAX_COUNTER
    && (past.closedAt.Some? ==> past.closedAt.value <= sh.epoch && sh.unavailable)
  }

  /** What holds of request `r`, given the shared fields and the past. */
  ghost predicate RequestOk(sh: Shared, past: History, r: nat, q: Request) {
    && (OwnsSlot(q.phase) <==> past.holder == Some(r))
    && (OwnsToken(q.phase) <==> sh.activeCancel == Some(r))
    && (q.ticket.Some? ==> q.ticket.value < |past.drawnBy| && past.drawnBy[q.ticket.value] == r)
    && (q.phase.Waiting? || OwnsSlot(q.phase) ==> q.ticket.Some?)
    && q.epoch <= sh.epoch
    // A bump whose token step is over has reached every request that compared before it.
    && (PastComparison(q.phase) && q.epoch < past.reached ==> q.token)
    // After a close that bumped, no request past the availability check read the new epoch.
    && (PastAvailability(q.phase) && past.closedAt.Some? ==> q.epoch < past.closedAt.value)
  }

  ghost predicate CallOk(sh: Shared, past: History, c: Canceller) {
    && (c.saw.None? <==> c.phase.Called? || c.phase.Marked?)
    && (Published(c) ==> c.saw.value + 1 <= sh.epoch)
    && (Published(c) && HasSignalled(c) ==> c.saw.value + 1 <= past.reached)
    && (c.phase.ClosedTrue? ==> c.closes)
    && (c.closes && !c.phase.Called? ==> sh.unavailable)
    && (c.closes && Published(c) ==> past.closedAt.Some?)
    && (c.phase.ClosedTrue? && Published(c) ==> !sh.isActive)
  }

  /** A sleeper waits for an occupied slot, and for its own ticket to stay the newest. */
  ghost predicate SleeperOk(s: State, r: nat) {
    At(s, r, Waiting) && s.sh.isActive && s.reqs[r].ticket.Some? && s.sh.pendingTicket == s.reqs[r].ticket
  }

  ghost predicate Inv(s: State) {
    && SharedOk(s.sh, s.past)
    && (forall r | 0 <= r < |s.reqs| :: RequestOk(s.sh, s.past, r, s.reqs[r]))
    && (forall c | 0 <= c < |s.calls| :: CallOk(s.sh, s.past, s.calls[c]))
    && (forall r | r in s.asleep :: SleeperOk(s, r))
    && (s.past.holder.Some? ==> s.past.holder.value < |s.reqs|)
    && (s.sh.activeCancel.Some? ==> s.sh.activeCancel.value < |s.reqs|)
  }

  // ------------------------------------------------------------ every step keeps it

  /** A request inside its lock region: awake, ticket drawn, no slot yet. */
  predicate InRegion(s: State, r: nat) {
    && r < |s.reqs| && r !in s.asleep && s.reqs[r].ticket.Some?
    && (s.reqs[r].phase.Waiting? || s.reqs[r].phase.Admitted?)
  }

  lemma ActivationKeeps(s: State, r: nat)
    requires Inv(s) && InRegion(s, r)
    requires TryActivate(s.sh, s.reqs[r].ticket.value, s.reqs[r].epoch).1 == Activate
    ensures Inv(Settle(s, r, s.sh.(isActive := true, pendingTicket := None), Activate))
  {
    AppendIncreasing(s.past.activations, s.reqs[r].ticket.value);
  }

  /** The lock region, from the test of the loop on. */
  lemma SettleKeeps(s: State, r: nat)
    requires Inv(s) && InRegion(s, r)
    ensures
      var (sh, verdict) := TryActivate(s.sh, s.reqs[r].ticket.value, s.reqs[r].epoch);
      Inv(Settle(s, r, sh, verdict))
  {
    var (sh, verdict) := TryActivate(s.sh, s.reqs[r].ticket.value, s.reqs[r].epoch);
    if verdict == Activate {
      ActivationKeeps(s, r);
    } else {
      assert sh == s.sh;
      assert verdict == Sleep ==> s.sh.isActive && s.sh.pendingTicket == s.reqs[r].ticket;
    }
  }

  lemma RecheckKeeps(s: State, r: nat)
    requires Inv(s) && Enabled(s, Recheck(r))
    ensures Inv(Apply(s, Recheck(r)))
  {
    SettleKeeps(s, r);
  }

  function Drawn(s: State, r: nat): State
    requires r < |s.reqs|
  {
    SetReq(s, r, s.reqs[r].(ticket := Some(s.sh.nextTicket)))
      .(asleep := {}, past := s.past.(drawnBy := s.past.drawnBy + [r]),
        sh := s.sh.(nextTicket := s.sh.nextTicket + 1, pendingTicket := Some(s.sh.nextTicket)))
  }

  lemma DrawKeeps(s: State, r: nat)
    requires Inv(s) && At(s, r, Admitted) && s.sh.nextTicket < MAX_COUNTER
    ensures Inv(Drawn(s, r))
  {
  }

  lemma EnterKeeps(s: State, r: nat)
    requires Inv(s) && Enabled(s, Enter(r))
    ensures Inv(Apply(s, Enter(r)))
  {
    if s.sh.nextTicket < MAX_COUNTER {
      DrawKeeps(s, r);
      SettleKeeps(Drawn(s, r), r);
      EnterIsDrawThenSettle(s, r);
    }
  }

  lemma EnterIsDrawThenSettle(s: State, r: nat)
    requires Enabled(s, Enter(r)) && s.sh.nextTicket < MAX_COUNTER
    ensures
      var (sh, verdict) := TryActivate(Drawn(s, r).sh, s.sh.nextTicket, s.reqs[r].epoch);
      Apply(s, Enter(r)) == Settle(Drawn(s, r), r, sh, verdict)
  {
  }

  lemma ArrivalKeeps(s: State)
    requires Inv(s) && Enabled(s, NewRequest)
    ensures Inv(Apply(s, NewRequest))
  {
    hide Increasing;
  }

  lemma CallKeeps(s: State, closes: bool)
    requires Inv(s) && Enabled(s, NewCall(closes))
    ensures Inv(Apply(s, NewCall(closes)))
  {
    hide Increasing;
  }

  lemma LoadEpochKeeps(s: State, r: nat)
    requires Inv(s) && Enabled(s, LoadEpoch(r))
    ensures Inv(Apply(s, LoadEpoch(r)))
  {
    hide Increasing;
  }

  lemma CheckAvailableKeeps(s: State, r: nat, accepted: bool)
    requires Inv(s) && Enabled(s, CheckAvailable(r, accepted))
    ensures Inv(Apply(s, CheckAvailable(r, accepted)))
  {
    hide Increasing;
  }

  lemma WakingKeeps(s: State, r: nat)
    requires Inv(s) && Enabled(s, WakeSpuriously(r))
    ensures Inv(Apply(s, WakeSpuriously(r)))
  {
    hide Increasing;
  }

  lemma InstallKeeps(s: State, r: nat)
    requires Inv(s) && Enabled(s, Install(r))
    ensures Inv(Apply(s, Install(r)))
  {
    hide Increasing;
  }

  lemma CompareKeeps(s: State, r: nat)
    requires Inv(s) && Enabled(s, Compare(r))
    ensures Inv(Apply(s, Compare(r)))
  {
    hide Increasing;
  }

  lemma ArmKeeps(s: State, r: nat)
    requires Inv(s) && Enabled(s, Arm(r))
    ensures Inv(Apply(s, Arm(r)))
  {
    hide Increasing;
  }

  lemma TestTokenKeeps(s: State, r: nat)
    requires Inv(s) && Enabled(s, TestToken(r))
    ensures Inv(Apply(s, TestToken(r)))
  {
    hide Increasing;
  }

  lemma ChildEndsKeeps(s: State, r: nat, cancelled: bool, unreaped: bool)
    requires Inv(s) && Enabled(s, ChildEnds(r, cancelled, unreaped))
    ensures Inv(Apply(s, ChildEnds(r, cancelled, unreaped)))
  {
    hide Increasing;
  }

  lemma UninstallKeeps(s: State, r: nat)
    requires Inv(s) && Enabled(s, Uninstall(r))
    ensures Inv(Apply(s, Uninstall(r)))
  {
    hide Increasing;
  }

  lemma ReleaseKeeps(s: State, r: nat)
    requires Inv(s) && Enabled(s, Release(r))
    ensures Inv(Apply(s, Release(r)))
  {
    hide Increasing;
  }

  lemma MarkUnavailableKeeps(s: State, c: nat)
    requires Inv(s) && Enabled(s, MarkUnavailable(c))
    ensures Inv(Apply(s, MarkUnavailable(c)))
  {
    hide Increasing;
  }

  lemma BumpKeeps(s: State, c: nat)
    requires Inv(s) && Enabled(s, Bump(c))
    ensures Inv(Apply(s, Bump(c)))
  {
    hide Increasing;
  }

  lemma MarkOverflowKeeps(s: State, c: nat)
    requires Inv(s) && Enabled(s, MarkOverflow(c))
    ensures Inv(Apply(s, MarkOverflow(c)))
  {
    hide Increasing;
  }

  lemma MarkOwnerKeeps(s: State)
    requires Inv(s)
    ensures Inv(MarkOwner(s)) && MarkOwner(s).sh == s.sh
    ensures s.sh.activeCancel.Some? ==>
      s.sh.activeCancel.value < |MarkOwner(s).reqs| && MarkOwner(s).reqs[s.sh.activeCancel.value].token
  {
    hide Increasing;
  }

  lemma PublishKeeps(s: State, c: nat)
    requires Inv(s) && CallAt(s, c, Bumped)
    requires s.sh.activeCancel.Some? ==> s.reqs[s.sh.activeCancel.value].token
    ensures Inv(Publish(s, c))
  {
    hide Increasing;
  }

  lemma SignalKeeps(s: State, c: nat)
    requires Inv(s) && Enabled(s, Signal(c))
    ensures Inv(Apply(s, Signal(c)))
  {
    hide Inv, Publish;
    MarkOwnerKeeps(s);
    PublishKeeps(MarkOwner(s), c);
  }

  lemma ClearPendingKeeps(s: State, c: nat)
    requires Inv(s) && Enabled(s, ClearPending(c))
    ensures Inv(Apply(s, ClearPending(c)))
  {
    hide Increasing;
  }

  lemma CloseReturnsKeeps(s: State, c: nat, ok: bool)
    requires Inv(s) && Enabled(s, CloseReturns(c, ok))
    ensures Inv(Apply(s, CloseReturns(c, ok)))
  {
    hide Increasing;
  }

  lemma StepKeepsInv(s: State, a: Action)
    requires Inv(s) && Enabled(s, a)
    ensures Inv(Apply(s, a))
  {
    hide Inv, Apply, Enabled;
    match a {
      case NewRequest => ArrivalKeeps(s);
      case NewCall(closes) => CallKeeps(s, closes);
      case LoadEpoch(r) => LoadEpochKeeps(s, r);
      case CheckAvailable(r, accepted) => CheckAvailableKeeps(s, r, accepted);
      case WakeSpuriously(r) => WakingKeeps(s, r);
      case Install(r) => InstallKeeps(s, r);
      case Compare(r) => CompareKeeps(s, r);
      case Arm(r) => ArmKeeps(s, r);
      case TestToken(r) => TestTokenKeeps(s, r);
      case ChildEnds(r, cancelled, unreaped) => ChildEndsKeeps(s, r, cancelled, unreaped);
      case Uninstall(r) => UninstallKeeps(s, r);
      case Release(r) => ReleaseKeeps(s, r);
      case MarkUnavailable(c) => MarkUnavailableKeeps(s, c);
      case Bump(c) => BumpKeeps(s, c);
      case MarkOverflow(c) => MarkOverflowKeeps(s, c);
      case Signal(c) => SignalKeeps(s, c);
      case ClearPending(c) => ClearPendingKeeps(s, c);
      case CloseReturns(c, ok) => CloseReturnsKeeps(s, c, ok);
      case Enter(r) => EnterKeeps(s, r);
      case Recheck(r) => RecheckKeeps(s, r);
    }
  }

  // ------------------------------------------------------------ runs

  /** A run: any interleaving of any number of calls, from a fresh controller. */
  ghost predicate IsRun(run: seq<State>, acts: seq<Action>) {
    && |run| == |acts| + 1
    && run[0] == INITIAL
    && forall i | 0 <= i < |acts| :: Enabled(run[i], acts[i]) && run[i + 1] == Apply(run[i], acts[i])
  }

  lemma {:induction false} RunKeepsInv(run: seq<State>, acts: seq<Action>, i: nat)
    requires IsRun(run, acts) && i < |run|
    ensures Inv(run[i])
  {
    if i > 0 {
      RunKeepsInv(run, acts, i - 1);
      StepKeepsInv(run[i - 1], acts[i - 1]);
    }
  }

  ghost predicate LaterRequest(q: Request, nextQ: Request) {
    !q.phase.Started? ==> !nextQ.phase.Started? && nextQ.epoch == q.epoch
  }

  ghost predicate LaterCall(c: Canceller, nextC: Canceller) {
    && (c.saw.Some? ==> nextC.saw == c.saw)
    && (HasSignalled(c) ==> HasSignalled(nextC))
    && (c.phase.ClosedTrue? ==> nextC.phase.ClosedTrue?)
  }

  /** What a step never undoes. */
  ghost predicate Later(s: State, next: State) {
    && |s.reqs| <= |next.reqs| && |s.calls| <= |next.calls|
    && s.sh.epoch <= next.sh.epoch && s.sh.nextTicket <= next.sh.nextTicket
    && (forall r | 0 <= r < |s.reqs| :: LaterRequest(s.reqs[r], next.reqs[r]))
    && (forall c | 0 <= c < |s.calls| :: LaterCall(s.calls[c], next.calls[c]))
  }

  /** The request, and the call, whose step it is. */
  function Requester(a: Action): Option<nat> {
    match a
    case LoadEpoch(r) => Some(r)
    case CheckAvailable(r, _) => Some(r)
    case Enter(r) => Some(r)
    case Recheck(r) => Some(r)
    case Install(r) => Some(r)
    case Compare(r) => Some(r)
    case Arm(r) => Some(r)
    case TestToken(r) => Some(r)
    case ChildEnds(r, _, _) => Some(r)
    case Uninstall(r) => Some(r)
    case Release(r) => Some(r)
    case _ => None
  }

  function Caller(a: Action): Option<nat> {
    match a
    case MarkUnavailable(c) => Some(c)
    case Bump(c) => Some(c)
    case MarkOverflow(c) => Some(c)
    case Signal(c) => Some(c)
    case ClearPending(c) => Some(c)
    case CloseReturns(c, _) => Some(c)
    case _ => None
  }

  lemma TestLeavesOthers(s: State, a: Action, r: nat)
    requires Enabled(s, a) && r < |s.reqs| && (a.Enter? || a.Recheck?) && a.r != r
    ensures r < |Apply(s, a).reqs| && Apply(s, a).reqs[r] == s.reqs[r]
  {
  }

  /** A step changes nothing of another request but its token, which it can only set. */
  lemma OthersStay(s: State, a: Action, r: nat)
    requires Enabled(s, a) && r < |s.reqs| && Requester(a) != Some(r)
    ensures r < |Apply(s, a).reqs| && (s.reqs[r].token ==> Apply(s, a).reqs[r].token)
    ensures Apply(s, a).reqs[r] == s.reqs[r].(token := Apply(s, a).reqs[r].token)
  {
    hide EnterStep, Settle, TryActivate, BumpStep;
    if a.Enter? || a.Recheck? {
      TestLeavesOthers(s, a, r);
    } else if a.Bump? {
      BumpLeavesRequests(s, a.c);
    }
  }

  lemma BumpLeavesRequests(s: State, c: nat)
    requires Enabled(s, Bump(c))
    ensures Apply(s, Bump(c)).reqs == s.reqs
  {
  }

  lemma OtherCallsStay(s: State, a: Action, c: nat)
    requires Enabled(s, a) && c < |s.calls| && Caller(a) != Some(c)
    ensures c < |Apply(s, a).calls| && Apply(s, a).calls[c] == s.calls[c]
  {
  }

  lemma RequestGoesOn(s: State, a: Action, r: nat)
    requires Enabled(s, a) && r < |s.reqs| && Requester(a) == Some(r)
    ensures r < |Apply(s, a).reqs| && LaterRequest(s.reqs[r], Apply(s, a).reqs[r])
  {
  }

  lemma CallGoesOn(s: State, a: Action, c: nat)
    requires Enabled(s, a) && c < |s.calls| && Caller(a) == Some(c) && CallOk(s.sh, s.past, s.calls[c])
    ensures c < |Apply(s, a).calls| && LaterCall(s.calls[c], Apply(s, a).calls[c])
  {
  }

  lemma RequestsGoOn(s: State, a: Action)
    requires Enabled(s, a)
    ensures |s.reqs| <= |Apply(s, a).reqs|
    ensures forall r | 0 <= r < |s.reqs| :: LaterRequest(s.reqs[r], Apply(s, a).reqs[r])
  {
    hide Apply, Enabled, Requester;
    NoneLeaves(s, a);
    forall r | 0 <= r < |s.reqs|
      ensures LaterRequest(s.reqs[r], Apply(s, a).reqs[r])
    {
      if Requester(a) == Some(r) {
        RequestGoesOn(s, a, r);
      } else {
        OthersStay(s, a, r);
      }
    }
  }

  lemma CallsGoOn(s: State, a: Action)
    requires Enabled(s, a) && forall c | 0 <= c < |s.calls| :: CallOk(s.sh, s.past, s.calls[c])
    ensures |s.calls| <= |Apply(s, a).calls|
    ensures forall c | 0 <= c < |s.calls| :: LaterCall(s.calls[c], Apply(s, a).calls[c])
  {
    hide Apply, Enabled, Caller, CallOk;
    NoneLeaves(s, a);
    forall c | 0 <= c < |s.calls|
      ensures LaterCall(s.calls[c], Apply(s, a).calls[c])
    {
      if Caller(a) == Some(c) {
        CallGoesOn(s, a, c);
      } else {
        OtherCallsStay(s, a, c);
      }
    }
  }

  lemma NoneLeaves(s: State, a: Action)
    requires Enabled(s, a)
    ensures |s.reqs| <= |Apply(s, a).reqs| && |s.calls| <= |Apply(s, a).calls|
  {
  }

  lemma CountersGoOn(s: State, a: Action)
    requires Enabled(s, a)
    ensures s.sh.epoch <= Apply(s, a).sh.epoch && s.sh.nextTicket <= Apply(s, a).sh.nextTicket
  {
  }

  lemma StepIsLater(s: State, a: Action)
    requires Inv(s) && Enabled(s, a)
    ensures Later(s, Apply(s, a))
  {
    hide RequestOk, SharedOk, SleeperOk, CallOk, LaterRequest, LaterCall, Apply, Enabled;
    RequestsGoOn(s, a);
    CallsGoOn(s, a);
    CountersGoOn(s, a);
  }

  lemma LaterIsTransitive(s: State, s1: State, s2: State)
    requires Later(s, s1) && Later(s1, s2)
    ensures Later(s, s2)
  {
    forall r | 0 <= r < |s.reqs|
      ensures LaterRequest(s.reqs[r], s2.reqs[r])
    {
      assert LaterRequest(s1.reqs[r], s2.reqs[r]);
    }
    forall c | 0 <= c < |s.calls|
      ensures LaterCall(s.calls[c], s2.calls[c])
    {
      assert LaterCall(s1.calls[c], s2.calls[c]);
    }
  }

  lemma {:induction false} RunIsLater(run: seq<State>, acts: seq<Action>, i: nat, j: nat)
    requires IsRun(run, acts) && i <= j < |run|
    ensures Later(run[i], run[j])
    decreases j
  {
    hide Inv, Apply, Enabled;
    if i < j {
      RunIsLater(run, acts, i, j - 1);
      RunKeepsInv(run, acts, j - 1);
      StepIsLater(run[j - 1], acts[j - 1]);
      LaterIsTransitive(run[i], run[j - 1], run[j]);
    }
  }

  // ------------------------------------------------------------ one slot, newest ticket first

  /** At most one request owns the slot, and an installed token is its token. */
  lemma SlotIsExclusive(run: seq<State>, acts: seq<Action>, i: nat, r: nat, q: nat)
    requires IsRun(run, acts) && i < |run| && r < |run[i].reqs| && q < |run[i].reqs|
    ensures OwnsSlot(run[i].reqs[r].phase) && OwnsSlot(run[i].reqs[q].phase) ==> r == q
    ensures run[i].sh.activeCancel == Some(r) ==> OwnsSlot(run[i].reqs[r].phase) && run[i].sh.isActive
    ensures OwnsSlot(run[i].reqs[r].phase) ==> run[i].sh.isActive
  {
    RunKeepsInv(run, acts, i);
    assert RequestOk(run[i].sh, run[i].past, r, run[i].reqs[r]);
    assert RequestOk(run[i].sh, run[i].past, q, run[i].reqs[q]);
  }

  /** Only a test of the wait loop activates. */
  lemma OthersActivateNothing(s: State, a: Action)
    requires Enabled(s, a) && !a.Enter? && !a.Recheck?
    ensures Apply(s, a).past.activations == s.past.activations
  {
  }

  lemma EnterActivates(s: State, r: nat)
    requires Enabled(s, Enter(r)) && Apply(s, Enter(r)).past.activations != s.past.activations
    ensures
      var next := Apply(s, Enter(r));
      && next.past.activations == s.past.activations + [next.sh.nextTicket - 1]
      && next.sh.epoch == s.sh.epoch && next.sh.isActive
  {
  }

  lemma RecheckActivates(s: State, r: nat)
    requires Inv(s) && Enabled(s, Recheck(r)) && Apply(s, Recheck(r)).past.activations != s.past.activations
    ensures
      var next := Apply(s, Recheck(r));
      && next.past.activations == s.past.activations + [next.sh.nextTicket - 1]
      && next.sh.epoch == s.sh.epoch && next.sh.isActive
  {
    hide RequestOk, CallOk, SleeperOk;
  }

  /** A step activates at most one ticket, and only the newest one drawn; the slot is then active. */
  lemma StepActivatesNewest(s: State, a: Action)
    requires Inv(s) && Enabled(s, a)
    ensures
      var t, next := s.past.activations, Apply(s, a);
      next.past.activations == t ||
        (next.past.activations == t + [next.sh.nextTicket - 1] && next.sh.epoch == s.sh.epoch && next.sh.isActive)
  {
    hide Inv, Apply, Enabled;
    if Apply(s, a).past.activations != s.past.activations {
      if a.Enter? {
        EnterActivates(s, a.r);
      } else if a.Recheck? {
        RecheckActivates(s, a.r);
      } else {
        OthersActivateNothing(s, a);
      }
    }
  }

  lemma OthersTakeNothing(s: State, a: Action, r: nat)
    requires Enabled(s, a) && r < |s.reqs| && !OwnsSlot(s.reqs[r].phase) && !a.Enter? && !a.Recheck?
    ensures r < |Apply(s, a).reqs| && !OwnsSlot(Apply(s, a).reqs[r].phase)
  {
    if a.Bump? {
      BumpLeavesRequests(s, a.c);
      hide Apply;
    }
  }

  /** The tickets recorded are those of the requests that take the slot, when they take it. */
  lemma TakingIsRecorded(s: State, a: Action, r: nat)
    requires Enabled(s, a) && r < |s.reqs| && !OwnsSlot(s.reqs[r].phase)
    requires r < |Apply(s, a).reqs| && OwnsSlot(Apply(s, a).reqs[r].phase)
    ensures Apply(s, a).reqs[r].ticket.Some?
    ensures Apply(s, a).past.activations == s.past.activations + [Apply(s, a).reqs[r].ticket.value]
  {
    if !a.Enter? && !a.Recheck? {
      OthersTakeNothing(s, a, r);
    }
  }

  lemma ActivationsIncrease(run: seq<State>, acts: seq<Action>, i: nat)
    requires IsRun(run, acts) && i < |run|
    ensures Increasing(run[i].past.activations)
    ensures run[i].sh.pendingTicket.None? || run[i].sh.pendingTicket == Some(run[i].sh.nextTicket - 1)
  {
    RunKeepsInv(run, acts, i);
  }

  /** A drawn ticket that is not pending and has not run never runs: a newer one, or a cancellation, overtook it. */
  lemma {:induction false} SupersededNeverActivates(run: seq<State>, acts: seq<Action>, i: nat, j: nat, t: nat)
    requires IsRun(run, acts) && i <= j < |run|
    requires t < run[i].sh.nextTicket && run[i].sh.pendingTicket != Some(t) && t !in run[i].past.activations
    ensures t < run[j].sh.nextTicket && run[j].sh.pendingTicket != Some(t) && t !in run[j].past.activations
    decreases j
  {
    hide Inv, Apply, Enabled;
    if i < j {
      SupersededNeverActivates(run, acts, i, j - 1, t);
      RunKeepsInv(run, acts, j - 1);
      StepIsLater(run[j - 1], acts[j - 1]);
      StepRepublishesNothing(run[j - 1], acts[j - 1]);
      if run[j].past.activations != run[j - 1].past.activations {
        StepActivatesPending(run[j - 1], acts[j - 1]);
      }
    }
  }

  /** A step publishes no ticket but a new one. */
  lemma StepRepublishesNothing(s: State, a: Action)
    requires Enabled(s, a)
    ensures
      var pending := Apply(s, a).sh.pendingTicket;
      pending == s.sh.pendingTicket || pending.None? || pending.value >= s.sh.nextTicket
  {
  }

  /** The ticket a step activates was pending, or is new. */
  lemma StepActivatesPending(s: State, a: Action)
    requires Inv(s) && Enabled(s, a) && Apply(s, a).past.activations != s.past.activations
    ensures |Apply(s, a).past.activations| == |s.past.activations| + 1
    ensures
      var t := Apply(s, a).past.activations[|s.past.activations|];
      && Apply(s, a).past.activations == s.past.activations + [t]
      && (s.sh.pendingTicket == Some(t) || t >= s.sh.nextTicket)
  {
  }

  /** A request still without the slot when a cancellation clears the pending ticket never runs. */
  lemma ClearedNeverActivates(run: seq<State>, acts: seq<Action>, i: nat, j: nat, t: nat)
    requires IsRun(run, acts) && i < |acts| && acts[i].ClearPending? && i < j < |run|
    requires t < run[i].sh.nextTicket && t !in run[i].past.activations
    ensures t !in run[j].past.activations
  {
    assert run[i + 1] == Apply(run[i], acts[i]);
    SupersededNeverActivates(run, acts, i + 1, j, t);
  }

  /** The next step a request takes when nothing stops it. */
  function NextOf(s: State, r: nat): Action
    requires r < |s.reqs| && s.reqs[r].phase != Done
  {
    match s.reqs[r].phase
    case Started => LoadEpoch(r)
    case EpochRead => CheckAvailable(r, false)
    case Admitted => Enter(r)
    case Waiting => Recheck(r)
    case Activated => Install(r)
    case Installed => Compare(r)
    case Compared(_) => Arm(r)
    case Armed => TestToken(r)
    case Spawned => ChildEnds(r, false, false)
    case Returned => Uninstall(r)
    case _ => Release(r)
  }

  lemma OneSleeper(s: State, r: nat)
    requires Inv(s) && r in s.asleep
    ensures s.asleep == {r}
  {
    hide SharedOk, CallOk;
    forall q | q in s.asleep
      ensures q == r
    {
      assert SleeperOk(s, q) && SleeperOk(s, r);
      assert RequestOk(s.sh, s.past, q, s.reqs[q]) && RequestOk(s.sh, s.past, r, s.reqs[r]);
    }
  }

  /** No request is ever stuck: it can step, or it sleeps behind a slot owner that can. */
  lemma NeverStuck(run: seq<State>, acts: seq<Action>, i: nat, r: nat)
    requires IsRun(run, acts) && i < |run| && r < |run[i].reqs| && run[i].reqs[r].phase != Done
    ensures r !in run[i].asleep ==> Enabled(run[i], NextOf(run[i], r))
    ensures r in run[i].asleep ==>
              && run[i].sh.isActive && run[i].sh.pendingTicket == run[i].reqs[r].ticket
              && run[i].asleep == {r}
              && exists h :: && 0 <= h < |run[i].reqs| && OwnsSlot(run[i].reqs[h].phase)
                             && Enabled(run[i], NextOf(run[i], h))
  {
    var s := run[i];
    RunKeepsInv(run, acts, i);
    assert RequestOk(s.sh, s.past, r, s.reqs[r]);
    if r in s.asleep {
      assert SleeperOk(s, r);
      OneSleeper(s, r);
      var h := s.past.holder.value;
      assert RequestOk(s.sh, s.past, h, s.reqs[h]);
      assert OwnsSlot(s.reqs[h].phase) && Enabled(s, NextOf(s, h));
    }
  }

  // ------------------------------------------------------------ close is final

  /** Call `c` bumped, or failed to bump, epoch `e` at step `k`. */
  ghost predicate BumpsAt(run: seq<State>, acts: seq<Action>, k: nat, c: nat, e: nat) {
    IsRun(run, acts) && k < |acts| && acts[k] == Bump(c) && run[k].sh.epoch == e
  }

  ghost predicate ReturnedTrue(run: seq<State>, i: nat, c: nat) {
    i < |run| && c < |run[i].calls| && run[i].calls[c].phase.ClosedTrue?
  }

  lemma BumpIsRecorded(run: seq<State>, acts: seq<Action>, k: nat, c: nat, e: nat, j: nat)
    requires BumpsAt(run, acts, k, c, e) && k < j < |run|
    ensures c < |run[j].calls| && run[j].calls[c].saw == Some(e)
  {
    assert run[k + 1] == Apply(run[k], acts[k]);
    RunIsLater(run, acts, k + 1, j);
  }

  /** Once a close whose bump went through has returned true, the slot is idle for good. */
  lemma {:induction false} CloseIsFinal(run: seq<State>, acts: seq<Action>, k: nat, c: nat, e: nat, i: nat, j: nat)
    requires BumpsAt(run, acts, k, c, e) && e < MAX_COUNTER
    requires k < i <= j < |run| && ReturnedTrue(run, i, c)
    ensures !run[j].sh.isActive && run[j].past.activations == run[i].past.activations
    decreases j
  {
    hide Apply, Enabled;
    RunKeepsInv(run, acts, j);
    BumpIsRecorded(run, acts, k, c, e, j);
    RunIsLater(run, acts, i, j);
    assert CallOk(run[j].sh, run[j].past, run[j].calls[c]);
    if i < j {
      CloseIsFinal(run, acts, k, c, e, i, j - 1);
      RunKeepsInv(run, acts, j - 1);
      IdleStep(run[j - 1], acts[j - 1]);
    }
  }

  /** A step that leaves the slot idle has activated nothing. */
  lemma IdleStep(s: State, a: Action)
    requires Inv(s) && Enabled(s, a) && !Apply(s, a).sh.isActive
    ensures Apply(s, a).past.activations == s.past.activations
  {
    StepActivatesNewest(s, a);
    hide *;
  }

  // ------------------------------------------------------------ no lost cancellation

  /** Request `r` read the epoch at step `i`, before call `c` bumped epoch `e` at step `k`. */
  ghost predicate CancelledAfterReading(run: seq<State>, acts: seq<Action>, i: nat, r: nat, k: nat, c: nat, e: nat) {
    BumpsAt(run, acts, k, c, e) && i < k && acts[i] == LoadEpoch(r)
  }

  lemma EpochIsRecorded(run: seq<State>, acts: seq<Action>, i: nat, r: nat, j: nat)
    requires IsRun(run, acts) && i < |acts| && acts[i] == LoadEpoch(r) && i < j < |run|
    ensures r < |run[j].reqs| && run[j].reqs[r].epoch == run[i].sh.epoch && !run[j].reqs[r].phase.Started?
  {
    assert run[i + 1] == Apply(run[i], acts[i]);
    RunIsLater(run, acts, i + 1, j);
  }

  /** If the call has finished its token step, the request past its second comparison is marked. */
  lemma NoLostCancellation(
      run: seq<State>, acts: seq<Action>, i: nat, r: nat, k: nat, c: nat, e: nat, j: nat)
    requires CancelledAfterReading(run, acts, i, r, k, c, e) && e < MAX_COUNTER
    requires k < j < |run| && c < |run[j].calls| && HasSignalled(run[j].calls[c])
    ensures r < |run[j].reqs| && (PastComparison(run[j].reqs[r].phase) ==> run[j].reqs[r].token)
  {
    EpochIsRecorded(run, acts, i, r, j);
    BumpIsRecorded(run, acts, k, c, e, j);
    RunIsLater(run, acts, i, k);
    RunKeepsInv(run, acts, j);
    assert CallOk(run[j].sh, run[j].past, run[j].calls[c]);
    assert RequestOk(run[j].sh, run[j].past, r, run[j].reqs[r]);
  }

  predicate BeforeSpawn(p: Phase) {
    !p.Spawned? && !p.Returned? && !p.Uninstalled? && !p.Done?
  }

  /** Not spawned, and if over, over without a result. */
  predicate Stopped(q: Request) {
    BeforeSpawn(q.phase) || (!q.phase.Spawned? && q.outcome != OtherResult)
  }

  lemma StoppedBefore(q: Request)
    requires BeforeSpawn(q.phase)
    ensures Stopped(q)
  {
  }

  lemma OwnStepStaysStopped(s: State, a: Action, r: nat)
    requires Enabled(s, a) && r < |s.reqs| && Stopped(s.reqs[r]) && Requester(a) == Some(r)
    requires PastComparison(s.reqs[r].phase) ==> s.reqs[r].token
    ensures r < |Apply(s, a).reqs| && Stopped(Apply(s, a).reqs[r])
  {
  }

  lemma StoppedStays(s: State, a: Action, r: nat)
    requires Enabled(s, a) && r < |s.reqs| && Stopped(s.reqs[r])
    requires PastComparison(s.reqs[r].phase) ==> s.reqs[r].token
    ensures r < |Apply(s, a).reqs| && Stopped(Apply(s, a).reqs[r])
  {
    hide Apply, Enabled, PastComparison;
    if Requester(a) == Some(r) {
      OwnStepStaysStopped(s, a, r);
    } else {
      OthersStay(s, a, r);
    }
  }

  /** A cancellation over before the child starts keeps it from ever starting. */
  lemma {:induction false} CancelledNeverSpawns(
      run: seq<State>, acts: seq<Action>, i: nat, r: nat, k: nat, c: nat, e: nat, j: nat, last: nat)
    requires CancelledAfterReading(run, acts, i, r, k, c, e) && e < MAX_COUNTER
    requires k < j <= last < |run| && c < |run[j].calls| && HasSignalled(run[j].calls[c])
    requires r < |run[j].reqs| && BeforeSpawn(run[j].reqs[r].phase)
    ensures r < |run[last].reqs| && Stopped(run[last].reqs[r])
    decreases last
  {
    hide Apply, Enabled, LaterRequest, PastComparison, Stopped;
    assert Stopped(run[j].reqs[r]) by {
      StoppedBefore(run[j].reqs[r]);
    }
    if j < last {
      CancelledNeverSpawns(run, acts, i, r, k, c, e, j, last - 1);
      RunIsLater(run, acts, j, last - 1);
      NoLostCancellation(run, acts, i, r, k, c, e, last - 1);
      StoppedStays(run[last - 1], acts[last - 1], r);
    }
  }

  /** A close, a refused bump, or a child that cannot be reaped. */
  predicate Disables(a: Action) {
    a.MarkUnavailable? || a.MarkOverflow? || (a.ChildEnds? && a.unreaped)
  }

  lemma StepDisables(s: State, a: Action)
    requires Enabled(s, a)
    ensures Apply(s, a).sh.unavailable <==> s.sh.unavailable || Disables(a)
  {
  }

  /** The runner is unavailable exactly when one of these has happened, and admits nothing from then on. */
  lemma {:induction false} UnavailableExactly(run: seq<State>, acts: seq<Action>, j: nat)
    requires IsRun(run, acts) && j < |run|
    ensures run[j].sh.unavailable <==> exists k :: 0 <= k < j && Disables(acts[k])
    ensures run[j].sh.unavailable ==> forall r: nat :: !Enabled(run[j], CheckAvailable(r, true))
    decreases j
  {
    hide Apply, Disables;
    if j > 0 {
      UnavailableExactly(run, acts, j - 1);
      StepDisables(run[j - 1], acts[j - 1]);
    }
  }

  // ------------------------------------------------------------ what a call returns

  /** The inner call is over. */
  predicate IsOver(p: Phase) {
    p.Returned? || p.Uninstalled? || p.Done?
  }

  /** The step at which request `r` gets its result, and the result. */
  predicate RefusedBy(s: State, a: Action, r: nat) {
    a == CheckAvailable(r, false) || (a == Enter(r) && s.sh.nextTicket == MAX_COUNTER)
  }

  predicate CancelledBy(s: State, a: Action, r: nat) {
    && r < |s.reqs|
    && match a
       case Enter(q) => q == r && s.sh.nextTicket != MAX_COUNTER && !s.sh.isActive && s.sh.epoch != s.reqs[r].epoch
       case Recheck(q) =>
         && q == r
         && (s.sh.pendingTicket != s.reqs[r].ticket || (!s.sh.isActive && s.sh.epoch != s.reqs[r].epoch))
       case TestToken(q) => q == r && s.reqs[r].token
       case ChildEnds(q, cancelled, _) => q == r && cancelled
       case _ => false
  }

  predicate AnsweredBy(a: Action, r: nat) {
    a.ChildEnds? && a.r == r && !a.cancelled
  }

  predicate OutcomeOk(q: Request) {
    q.outcome == NoneYet <==> !IsOver(q.phase)
  }

  /** This step of request `r` gives it this outcome. */
  predicate Decides(s: State, a: Action, r: nat, outcome: Outcome) {
    match outcome
    case NoneYet => false
    case Refused => RefusedBy(s, a, r)
    case Cancelled => CancelledBy(s, a, r)
    case OtherResult => AnsweredBy(a, r)
  }

  /** The result after a step of request `r`: decided by it, or as before. */
  predicate Follows(s: State, a: Action, r: nat, outcome: Outcome)
    requires Enabled(s, a) && r < |s.reqs|
  {
    && r < |Apply(s, a).reqs| && OutcomeOk(Apply(s, a).reqs[r])
    && (outcome != NoneYet ==>
      (Apply(s, a).reqs[r].outcome == outcome <==> s.reqs[r].outcome == outcome || Decides(s, a, r, outcome)))
  }

  lemma EnterOutcome(s: State, r: nat, outcome: Outcome)
    requires Enabled(s, Enter(r)) && OutcomeOk(s.reqs[r])
    ensures Follows(s, Enter(r), r, outcome)
  {
  }

  lemma RecheckOutcome(s: State, r: nat, outcome: Outcome)
    requires Enabled(s, Recheck(r)) && OutcomeOk(s.reqs[r])
    ensures Follows(s, Recheck(r), r, outcome)
  {
  }

  lemma OwnOutcome(s: State, a: Action, r: nat, outcome: Outcome)
    requires Enabled(s, a) && r < |s.reqs| && OutcomeOk(s.reqs[r]) && Requester(a) == Some(r)
    ensures Follows(s, a, r, outcome)
  {
    if a.Enter? {
      hide *;
      EnterOutcome(s, r, outcome);
    } else if a.Recheck? {
      hide *;
      RecheckOutcome(s, r, outcome);
    } else {
      hide EnterStep, TryActivate, Settle;
    }
  }

  lemma OnlyOwnStepsDecide(s: State, a: Action, r: nat, outcome: Outcome)
    requires Enabled(s, a) && Decides(s, a, r, outcome)
    ensures r < |s.reqs| && Requester(a) == Some(r)
  {
  }

  lemma Newcomer(s: State, a: Action, r: nat)
    requires Enabled(s, a) && |s.reqs| <= r < |Apply(s, a).reqs|
    ensures Apply(s, a).reqs[r].outcome == NoneYet && OutcomeOk(Apply(s, a).reqs[r])
  {
  }

  ghost predicate Decided(run: seq<State>, acts: seq<Action>, j: nat, r: nat, outcome: Outcome)
    requires IsRun(run, acts) && j < |run|
  {
    exists k :: 0 <= k < j && Decides(run[k], acts[k], r, outcome)
  }

  lemma UndecidedBefore(run: seq<State>, acts: seq<Action>, j: nat, r: nat, outcome: Outcome)
    requires IsRun(run, acts) && 0 < j < |run| && |run[j - 1].reqs| <= r
    ensures !Decided(run, acts, j, r, outcome)
  {
    hide Apply, Enabled, Decides;
    forall k | 0 <= k < j
      ensures !Decides(run[k], acts[k], r, outcome)
    {
      RunIsLater(run, acts, k, j - 1);
      if Decides(run[k], acts[k], r, outcome) {
        OnlyOwnStepsDecide(run[k], acts[k], r, outcome);
      }
    }
  }

  /** A call's result is its child's own, a cancellation or a refusal exactly when one of its steps made it so. */
  lemma {:induction false} OutcomeIsExact(run: seq<State>, acts: seq<Action>, j: nat, r: nat, outcome: Outcome)
    requires IsRun(run, acts) && j < |run| && r < |run[j].reqs|
    ensures OutcomeOk(run[j].reqs[r])
    ensures outcome != NoneYet ==> (run[j].reqs[r].outcome == outcome <==> Decided(run, acts, j, r, outcome))
    decreases j
  {
    hide Apply, Enabled, Decides, Requester, OutcomeOk;
    if j > 0 {
      var s, a := run[j - 1], acts[j - 1];
      assert run[j] == Apply(s, a);
      if r >= |s.reqs| {
        Newcomer(s, a, r);
        UndecidedBefore(run, acts, j, r, outcome);
      } else {
        OutcomeIsExact(run, acts, j - 1, r, outcome);
        OutcomeStep(s, a, r, outcome);
        assert Decided(run, acts, j, r, outcome) <==>
          Decided(run, acts, j - 1, r, outcome) || Decides(s, a, r, outcome);
      }
    }
  }

  lemma OutcomeStep(s: State, a: Action, r: nat, outcome: Outcome)
    requires Enabled(s, a) && r < |s.reqs| && OutcomeOk(s.reqs[r])
    ensures Follows(s, a, r, outcome)
  {
    hide Apply, Enabled, Decides, Requester;
    if Requester(a) == Some(r) {
      OwnOutcome(s, a, r, outcome);
    } else {
      OthersStay(s, a, r);
      if Decides(s, a, r, outcome) {
        OnlyOwnStepsDecide(s, a, r, outcome);
      }
    }
  }

  // ------------------------------------------------------------ nothing is cancelled without a cause

  /** A newer ticket, a cleared pending ticket, a bump after the epoch was read, or a store through the own token. */
  predicate Disturbs(s: State, a: Action, r: nat) {
    && r < |s.reqs|
    && match a
       case Enter(q) => q != r && s.sh.nextTicket < MAX_COUNTER && s.reqs[r].ticket.Some?
       case ClearPending(_) => s.reqs[r].ticket.Some?
       case Bump(_) => s.sh.epoch < MAX_COUNTER && !s.reqs[r].phase.Started?
       case Signal(_) => s.sh.activeCancel == Some(r)
       case _ => false
  }

  predicate Undisturbed(s: State, r: nat) {
    r < |s.reqs| ==>
      var q := s.reqs[r];
      && (!q.phase.Started? ==> q.epoch == s.sh.epoch)
      && (q.phase.Waiting? ==> s.sh.pendingTicket == q.ticket)
      && !q.token && q.phase != Compared(true) && q.outcome != Cancelled
  }

  lemma OwnStepStaysUndisturbed(s: State, a: Action, r: nat)
    requires Enabled(s, a) && r < |s.reqs| && Undisturbed(s, r) && Requester(a) == Some(r)
    ensures Undisturbed(Apply(s, a), r)
  {
  }

  lemma AttemptLeavesPending(s: State, a: Action, r: nat)
    requires Inv(s) && Enabled(s, a) && r < |s.reqs| && Undisturbed(s, r) && !Disturbs(s, a, r)
    requires (a.Enter? || a.Recheck?) && a.r != r
    ensures Undisturbed(Apply(s, a), r)
  {
    assert RequestOk(s.sh, s.past, r, s.reqs[r]) && RequestOk(s.sh, s.past, a.r, s.reqs[a.r]);
    hide Inv, SleeperOk, CallOk;
  }

  lemma OtherStepStaysUndisturbed(s: State, a: Action, r: nat)
    requires Inv(s) && Enabled(s, a) && r < |s.reqs| && Undisturbed(s, r) && !Disturbs(s, a, r)
    requires !a.Enter? && !a.Recheck? && Requester(a) != Some(r)
    ensures Undisturbed(Apply(s, a), r)
  {
    assert RequestOk(s.sh, s.past, r, s.reqs[r]);
    hide Inv;
  }

  lemma NewcomerIsUndisturbed(s: State, a: Action, r: nat)
    requires Enabled(s, a) && |s.reqs| <= r
    ensures Undisturbed(Apply(s, a), r)
  {
  }

  lemma StepStaysUndisturbed(s: State, a: Action, r: nat)
    requires Inv(s) && Enabled(s, a) && Undisturbed(s, r) && !Disturbs(s, a, r)
    ensures Undisturbed(Apply(s, a), r)
  {
    hide Inv, Apply, Enabled, Undisturbed, Disturbs;
    if r >= |s.reqs| {
      NewcomerIsUndisturbed(s, a, r);
    } else if Requester(a) == Some(r) {
      OwnStepStaysUndisturbed(s, a, r);
    } else if a.Enter? || a.Recheck? {
      AttemptLeavesPending(s, a, r);
    } else {
      OtherStepStaysUndisturbed(s, a, r);
    }
  }

  lemma {:induction false} RunStaysUndisturbed(run: seq<State>, acts: seq<Action>, j: nat, r: nat)
    requires IsRun(run, acts) && j < |run|
    requires forall k | 0 <= k < j :: !Disturbs(run[k], acts[k], r)
    ensures Undisturbed(run[j], r)
    decreases j
  {
    hide Inv, Apply, Enabled, Disturbs;
    if j > 0 {
      RunStaysUndisturbed(run, acts, j - 1, r);
      RunKeepsInv(run, acts, j - 1);
      StepStaysUndisturbed(run[j - 1], acts[j - 1], r);
    }
  }

  /** No request is cancelled spuriously. */
  lemma CancelledHasCause(run: seq<State>, acts: seq<Action>, j: nat, r: nat)
    requires IsRun(run, acts) && j < |run| && r < |run[j].reqs| && run[j].reqs[r].outcome == Cancelled
    ensures exists k :: 0 <= k < j && Disturbs(run[k], acts[k], r)
  {
    hide Apply, Enabled, Disturbs;
    if forall k | 0 <= k < j :: !Disturbs(run[k], acts[k], r) {
      RunStaysUndisturbed(run, acts, j, r);
    }
  }

  /** The child runs, or the call is over: with the child's own result, or as cancelled through its token. */
  predicate Ran(q: Request) {
    q.phase.Spawned? || (IsOver(q.phase) && (q.outcome == OtherResult || (q.outcome == Cancelled && q.token)))
  }

  lemma OwnStepStaysRan(s: State, a: Action, r: nat)
    requires Enabled(s, a) && r < |s.reqs| && Ran(s.reqs[r]) && Requester(a) == Some(r)
    ensures r < |Apply(s, a).reqs| && Ran(Apply(s, a).reqs[r])
  {
  }

  /** A request whose child started has the child's own result in the end unless its token is set. */
  lemma {:induction false} UnmarkedIsAnswered(run: seq<State>, acts: seq<Action>, k: nat, j: nat, r: nat)
    requires IsRun(run, acts) && k <= j < |run| && At(run[k], r, Spawned)
    ensures r < |run[j].reqs| && Ran(run[j].reqs[r])
    decreases j
  {
    hide Apply, Enabled, IsOver;
    if k < j {
      UnmarkedIsAnswered(run, acts, k, j - 1, r);
      if Requester(acts[j - 1]) == Some(r) {
        OwnStepStaysRan(run[j - 1], acts[j - 1], r);
      } else {
        OthersStay(run[j - 1], acts[j - 1], r);
      }
    }
  }

  // ------------------------------------------------------------ the saturated epoch

  /*
   A bump of the largest epoch is refused: the call then stores `unavailable` and goes on, and
   a request that read the same epoch and passed the availability check sees no difference.
   Both guarantees hold exactly when the bump is not refused.
   */

  ghost predicate Extends(run: seq<State>, acts: seq<Action>, longer: seq<State>, longerActs: seq<Action>) {
    IsRun(run, acts) && IsRun(longer, longerActs) && run <= longer && acts <= longerActs
  }

  lemma Step(run: seq<State>, acts: seq<Action>, a: Action) returns (longer: seq<State>, longerActs: seq<Action>)
    requires IsRun(run, acts) && Enabled(run[|acts|], a)
    ensures Extends(run, acts, longer, longerActs) && |longerActs| == |acts| + 1 && longerActs[|acts|] == a
    ensures longer[|longerActs|] == Apply(run[|acts|], a)
  {
    longer, longerActs := run + [Apply(run[|acts|], a)], acts + [a];
    hide Apply, Enabled;
  }

  /** Nothing has happened but cancellations, each up to its bump. */
  predicate OnlyBumps(s: State, e: nat) {
    && s.sh == FRESH.(epoch := e) && s.reqs == [] && s.asleep == {} && s.past == INITIAL.past
  }

  lemma {:induction false} ReachEpoch(e: nat) returns (run: seq<State>, acts: seq<Action>)
    requires e <= MAX_COUNTER
    ensures IsRun(run, acts) && OnlyBumps(run[|acts|], e)
  {
    if e == 0 {
      run, acts := [INITIAL], [];
    } else {
      run, acts := ReachEpoch(e - 1);
      var c := |run[|acts|].calls|;
      run, acts := Step(run, acts, NewCall(false));
      run, acts := Step(run, acts, Bump(c));
    }
  }

  /** One request reads the largest epoch and is admitted; then a close call, number `c`, refuses to bump it. */
  lemma RefusedBump() returns (run: seq<State>, acts: seq<Action>, i: nat, k: nat, c: nat)
    ensures CancelledAfterReading(run, acts, i, 0, k, c, MAX_COUNTER) && run[k].calls[c].closes
    ensures
      var s := run[|acts|];
      && c < |s.calls| && s.calls[c] == Canceller(true, Overflowed, Some(MAX_COUNTER))
      && s.sh == FRESH.(epoch := MAX_COUNTER, unavailable := true)
      && s.reqs == [Request(Admitted, MAX_COUNTER, None, false, NoneYet)]
  {
    run, acts := ReachEpoch(MAX_COUNTER);
    run, acts := Step(run, acts, NewRequest);
    i := |acts|;
    run, acts := Step(run, acts, LoadEpoch(0));
    run, acts := Step(run, acts, CheckAvailable(0, true));
    c := |run[|acts|].calls|;
    run, acts := Step(run, acts, NewCall(true));
    run, acts := Step(run, acts, MarkUnavailable(c));
    k := |acts|;
    run, acts := Step(run, acts, Bump(c));
  }

  /** The close goes on, finds the slot idle, and returns true. */
  lemma RefusedBumpCloses() returns (run: seq<State>, acts: seq<Action>, i: nat, k: nat, c: nat)
    ensures CancelledAfterReading(run, acts, i, 0, k, c, MAX_COUNTER) && run[k].calls[c].closes && k < |acts|
    ensures
      var s := run[|acts|];
      && c < |s.calls| && s.calls[c] == Canceller(true, ClosedTrue, Some(MAX_COUNTER))
      && s.sh == FRESH.(epoch := MAX_COUNTER, unavailable := true)
      && s.reqs == [Request(Admitted, MAX_COUNTER, None, false, NoneYet)]
  {
    run, acts, i, k, c := RefusedBump();
    run, acts := Step(run, acts, MarkOverflow(c));
    run, acts := Step(run, acts, Signal(c));
    run, acts := Step(run, acts, ClearPending(c));
    run, acts := Step(run, acts, CloseReturns(c, true));
  }

  /** Then the request activates and arms. */
  lemma RefusedBumpIsLost()
      returns (run: seq<State>, acts: seq<Action>, i: nat, k: nat, c: nat, n: nat)
    ensures CancelledAfterReading(run, acts, i, 0, k, c, MAX_COUNTER) && run[k].calls[c].closes
    ensures k < n < |acts| && ReturnedTrue(run, n, c)
    ensures run[|acts|].sh.isActive && c < |run[|acts|].calls| && HasSignalled(run[|acts|].calls[c])
    ensures At(run[|acts|], 0, Armed) && !run[|acts|].reqs[0].token
  {
    run, acts, i, k, c := RefusedBumpCloses();
    n := |acts|;
    run, acts := Step(run, acts, Enter(0));
    run, acts := Step(run, acts, Install(0));
    run, acts := Step(run, acts, Compare(0));
    run, acts := Step(run, acts, Arm(0));
  }

  ghost predicate ClosedIdle(run: seq<State>, acts: seq<Action>, k: nat, c: nat, e: nat, i: nat, j: nat) {
    BumpsAt(run, acts, k, c, e) && k < i <= j < |run| && ReturnedTrue(run, i, c) ==> !run[j].sh.isActive
  }

  /** Close is final for exactly the epochs its bump accepts. */
  lemma CloseIsFinalExactly(e: nat)
    requires e <= MAX_COUNTER
    ensures (forall run, acts, k, c, i, j :: ClosedIdle(run, acts, k, c, e, i, j)) <==> e < MAX_COUNTER
  {
    if e < MAX_COUNTER {
      forall run: seq<State>, acts: seq<Action>, k: nat, c: nat, i: nat, j: nat
        ensures ClosedIdle(run, acts, k, c, e, i, j)
      {
        if BumpsAt(run, acts, k, c, e) && k < i <= j < |run| && ReturnedTrue(run, i, c) {
          CloseIsFinal(run, acts, k, c, e, i, j);
        }
      }
    } else {
      var run, acts, i, k, c, n := RefusedBumpIsLost();
      assert !ClosedIdle(run, acts, k, c, e, n, |acts|);
    }
  }

  ghost predicate CancelSeen(run: seq<State>, acts: seq<Action>, i: nat, r: nat, k: nat, c: nat, e: nat, j: nat) {
    && CancelledAfterReading(run, acts, i, r, k, c, e)
    && k < j < |run| && c < |run[j].calls| && HasSignalled(run[j].calls[c])
    && r < |run[j].reqs| && PastComparison(run[j].reqs[r].phase)
    ==> run[j].reqs[r].token
  }

  /** A cancellation is never lost for exactly the epochs its bump accepts. */
  lemma CancellationIsSeenExactly(e: nat)
    requires e <= MAX_COUNTER
    ensures (forall run, acts, i, r, k, c, j :: CancelSeen(run, acts, i, r, k, c, e, j)) <==> e < MAX_COUNTER
  {
    if e < MAX_COUNTER {
      forall run: seq<State>, acts: seq<Action>, i: nat, r: nat, k: nat, c: nat, j: nat
        ensures CancelSeen(run, acts, i, r, k, c, e, j)
      {
        if && CancelledAfterReading(run, acts, i, r, k, c, e)
           && k < j < |run| && c < |run[j].calls| && HasSignalled(run[j].calls[c]) {
          NoLostCancellation(run, acts, i, r, k, c, e, j);
        }
      }
    } else {
      var run, acts, i, k, c, n := RefusedBumpIsLost();
      assert !CancelSeen(run, acts, i, 0, k, c, e, |acts|);
    }
  }
}
