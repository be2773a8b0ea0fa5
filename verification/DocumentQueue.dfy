/** The theme runner's document queue. */
module DocumentQueue {
  /*
   The application-theme runner's document queue: tickets are served first in, first out, and a
   cancellation drops every ticket drawn so far and marks the running request.

   One mutex guards the whole state, so each call is a sequence of lock regions with the child
   process between them. `DocumentController` performs the regions in place; `Apply` interleaves
   the regions of any number of calls.
  */

  import opened Options
  import opened Tickets

  datatype Shared = Shared(
    isActive: bool,
    activeCancel: Option<nat>,   // the request whose cancel token is installed
    nextTicket: nat,
    servingTicket: nat,
    cancelledBefore: nat)

  const FRESH: Shared := Shared(false, None, 0, 0, 0)

  datatype Verdict = Sleep | DroppedWaiting | DroppedServing | Activate

  // ------------------------------------------------------------ regions

  function Max(a: nat, b: nat): nat {
    if a < b then b else a
  }

  /** From a test of the wait loop to the end of the region, for request `r`. */
  function TryActivate(sh: Shared, r: nat, ticket: nat): (Shared, Verdict) {
    if sh.isActive || sh.servingTicket != ticket then
      (sh, if ticket < sh.cancelledBefore then DroppedWaiting else Sleep)
    else if ticket < sh.cancelledBefore then
      (sh.(servingTicket := Max(sh.servingTicket + 1, sh.cancelledBefore)), DroppedServing)
    else
      (sh.(isActive := true, activeCancel := Some(r)), Activate)
  }

  function CancelAll(sh: Shared): Shared {
    sh.(cancelledBefore := sh.nextTicket,
        servingTicket := if sh.isActive then sh.servingTicket else sh.nextTicket)
  }

  function Release(sh: Shared, r: nat): Shared {
    sh.(activeCancel := if sh.activeCancel == Some(r) then None else sh.activeCancel,
        isActive := false,
        servingTicket := Max(sh.servingTicket + 1, sh.cancelledBefore))
  }

  /** The controller, updated in place one region at a time. */
  class DocumentController {
    var isActive: bool
    var activeCancel: Option<nat>
    var nextTicket: nat
    var servingTicket: nat
    var cancelledBefore: nat

    function View(): Shared
      reads this
    {
      Shared(isActive, activeCancel, nextTicket, servingTicket, cancelledBefore)
    }

    constructor ()
      ensures View() == FRESH
    {
      isActive, activeCancel := false, None;
      nextTicket, servingTicket, cancelledBefore := 0, 0, 0;
    }

    method Draw() returns (ticket: nat)
      modifies `nextTicket
      ensures ticket == old(nextTicket)
      ensures View() == old(View()).(nextTicket := ticket + 1)
    {
      ticket := nextTicket;
      nextTicket := nextTicket + 1;
    }

    method Attempt(r: nat, ticket: nat) returns (verdict: Verdict)
      modifies `isActive, `activeCancel, `servingTicket
      ensures (View(), verdict) == TryActivate(old(View()), r, ticket)
    {
      if isActive || servingTicket != ticket {
        if ticket < cancelledBefore {
          return DroppedWaiting;
        }
        return Sleep;
      }
      if ticket < cancelledBefore {
        servingTicket := Max(servingTicket + 1, cancelledBefore);
        return DroppedServing;
      }
      isActive := true;
      activeCancel := Some(r);
      return Activate;
    }

    /** Returns the request whose token must be set, if one is installed. */
    method CancelDocuments() returns (token: Option<nat>)
      modifies `servingTicket, `cancelledBefore
      ensures View() == CancelAll(old(View())) && token == activeCancel
    {
      cancelledBefore := nextTicket;
      token := activeCancel;
      if !isActive {
        servingTicket := nextTicket;
      }
    }

    method Leave(r: nat)
      modifies `isActive, `activeCancel, `servingTicket
      ensures View() == Release(old(View()), r)
    {
      if activeCancel == Some(r) {
        activeCancel := None;
      }
      isActive := false;
      var next := servingTicket + 1;
      servingTicket := Max(next, cancelledBefore);
    }
  }

  // ------------------------------------------------------------ concurrent calls

  /** What a call returns; `OtherResult` is whatever its child ended with. */
  datatype Outcome = NoneYet | Cancelled | OtherResult

  datatype Phase =
    | Started     // passed the checks made before the lock
    | Waiting     // holds a ticket, inside the wait loop
    | Armed       // owns the slot, about to test its token and spawn
    | Spawned     // the child process runs
    | Returned    // the inner call is over, slot still held
    | Done

  datatype Request = Request(phase: Phase, ticket: Option<nat>, token: bool, outcome: Outcome)

  /** `activations` and `drawnBy` record the past; no step reads them. */
  datatype State = State(
    sh: Shared,
    reqs: seq<Request>,
    asleep: set<nat>,
    activations: seq<nat>,
    drawnBy: seq<nat>)

  const INITIAL: State := State(FRESH, [], {}, [], [])

  datatype Action =
    | NewRequest
    | Enter(r: nat)
    | WakeSpuriously(r: nat)
    | Recheck(r: nat)
    | TestToken(r: nat)
    | ChildEnds(r: nat, cancelled: bool)
    | Leave(r: nat)
    | CancelDocuments

  predicate At(s: State, r: nat, phase: Phase) {
    r < |s.reqs| && s.reqs[r].phase == phase
  }

  predicate Enabled(s: State, a: Action) {
    match a
    case NewRequest => true
    case CancelDocuments => true
    case Enter(r) => At(s, r, Started)
    case WakeSpuriously(r) => r in s.asleep
    case Recheck(r) => At(s, r, Waiting) && r !in s.asleep && s.reqs[r].ticket.Some?
    case TestToken(r) => At(s, r, Armed)
    case ChildEnds(r, cancelled) => At(s, r, Spawned) && (cancelled ==> s.reqs[r].token)
    case Leave(r) => At(s, r, Returned)
  }

  function SetReq(s: State, r: nat, q: Request): State
    requires r < |s.reqs|
  {
    s.(reqs := s.reqs[r := q])
  }

  /** The lock region, from a test of the loop on, of a request that holds a ticket. */
  function Attempt(s: State, r: nat): State
    requires r < |s.reqs| && s.reqs[r].ticket.Some?
  {
    var q := s.reqs[r];
    var (sh, verdict) := TryActivate(s.sh, r, q.ticket.value);
    var s1 := s.(sh := sh);
    match verdict
    case Sleep => SetReq(s1, r, q.(phase := Waiting)).(asleep := s.asleep + {r})
    case DroppedWaiting => SetReq(s1, r, q.(phase := Done, outcome := Cancelled))
    case DroppedServing => SetReq(s1, r, q.(phase := Done, outcome := Cancelled)).(asleep := {})
    case Activate => SetReq(s1, r, q.(phase := Armed)).(activations := s.activations + [q.ticket.value])
  }

  function Draw(s: State, r: nat): State
    requires r < |s.reqs|
  {
    SetReq(s, r, s.reqs[r].(ticket := Some(s.sh.nextTicket)))
      .(sh := s.sh.(nextTicket := s.sh.nextTicket + 1), drawnBy := s.drawnBy + [r])
  }

  function CancelStep(s: State): State {
    var s1 := s.(sh := CancelAll(s.sh), asleep := {});
    match s.sh.activeCancel
    case Some(r) => if r < |s.reqs| then SetReq(s1, r, s.reqs[r].(token := true)) else s1
    case None => s1
  }

  function Apply(s: State, a: Action): State
    requires Enabled(s, a)
  {
    match a
    case NewRequest => s.(reqs := s.reqs + [Request(Started, None, false, NoneYet)])
    case CancelDocuments => CancelStep(s)
    case Enter(r) => Attempt(Draw(s, r), r)
    case WakeSpuriously(r) => s.(asleep := s.asleep - {r})
    case Recheck(r) => Attempt(s, r)
    case TestToken(r) =>
      SetReq(s, r, if s.reqs[r].token then s.reqs[r].(phase := Returned, outcome := Cancelled)
                   else s.reqs[r].(phase := Spawned))
    case ChildEnds(r, cancelled) =>
      SetReq(s, r, s.reqs[r].(phase := Returned, outcome := if cancelled then Cancelled else OtherResult))
    case Leave(r) => SetReq(s, r, s.reqs[r].(phase := Done)).(sh := Release(s.sh, r), asleep := {})
  }

  // ------------------------------------------------------------ the invariant

  predicate OwnsSlot(p: Phase) {
    p.Armed? || p.Spawned? || p.Returned?
  }

  /** Drawn, not over. */
  predicate Live(p: Phase) {
    p.Waiting? || OwnsSlot(p)
  }

  /** The first ticket still to be served. */
  function Front(sh: Shared): nat {
    Max(if sh.isActive then sh.servingTicket + 1 else sh.servingTicket, sh.cancelledBefore)
  }

  ghost predicate SharedOk(s: State) {
    && s.sh.servingTicket <= s.sh.nextTicket == |s.drawnBy|
    && s.sh.cancelledBefore <= s.sh.nextTicket
    && (s.sh.isActive <==> s.sh.activeCancel.Some?)
    && (s.sh.isActive ==>
      s.sh.servingTicket < s.sh.nextTicket && s.sh.activeCancel.value == s.drawnBy[s.sh.servingTicket])
    && (!s.sh.isActive ==> s.sh.cancelledBefore <= s.sh.servingTicket)
    && Increasing(s.activations)
    && (forall t | t in s.activations ::
      t < s.sh.nextTicket && t <= s.sh.servingTicket && (t == s.sh.servingTicket ==> s.sh.isActive))
    && (forall t | 0 <= t < |s.drawnBy| :: s.drawnBy[t] < |s.reqs| && s.reqs[s.drawnBy[t]].ticket == Some(t))
  }

  ghost predicate RequestOk(sh: Shared, drawnBy: seq<nat>, r: nat, q: Request) {
    && (OwnsSlot(q.phase) <==> sh.activeCancel == Some(r))
    && (q.phase.Started? <==> q.ticket.None?)
    && (q.ticket.Some? ==> q.ticket.value < |drawnBy| && drawnBy[q.ticket.value] == r)
    && (OwnsSlot(q.phase) ==> q.ticket == Some(sh.servingTicket))
    // No ticket is lost: from the front on, every drawn ticket still waits ...
    && (q.ticket.Some? && q.ticket.value >= Front(sh) ==> q.phase.Waiting?)
    // ... and a waiting one behind the front was cancelled.
    && (q.phase.Waiting? && q.ticket.value < Front(sh) ==> q.ticket.value < sh.cancelledBefore)
    // The running request is marked exactly when a cancellation covered its ticket.
    && (OwnsSlot(q.phase) ==> (q.token <==> q.ticket.value < sh.cancelledBefore))
    && (!OwnsSlot(q.phase) && !q.phase.Done? ==> !q.token)
  }

  /** A sleeper's loop condition holds, and no cancellation covers its ticket. */
  ghost predicate SleeperOk(s: State, r: nat) {
    && At(s, r, Waiting) && s.reqs[r].ticket.Some?
    && (s.sh.isActive || s.sh.servingTicket != s.reqs[r].ticket.value)
    && s.reqs[r].ticket.value >= s.sh.cancelledBefore
  }

  ghost predicate Inv(s: State) {
    && SharedOk(s)
    && (forall r | 0 <= r < |s.reqs| :: RequestOk(s.sh, s.drawnBy, r, s.reqs[r]))
    && (forall r | r in s.asleep :: SleeperOk(s, r))
  }

  // ------------------------------------------------------------ every step keeps it

  /** A request inside its lock region: awake, ticket drawn and not yet served. */
  predicate InRegion(s: State, r: nat) {
    r < |s.reqs| && r !in s.asleep && s.reqs[r].phase.Waiting? && s.reqs[r].ticket.Some?
  }

  lemma ActivationKeeps(s: State, r: nat)
    requires Inv(s) && InRegion(s, r) && TryActivate(s.sh, r, s.reqs[r].ticket.value).1 == Activate
    ensures Inv(Attempt(s, r))
  {
    AppendIncreasing(s.activations, s.reqs[r].ticket.value);
    hide Increasing;
  }

  lemma SleepKeeps(s: State, r: nat)
    requires Inv(s) && InRegion(s, r) && TryActivate(s.sh, r, s.reqs[r].ticket.value).1 == Sleep
    ensures Inv(Attempt(s, r))
  {
    hide Increasing;
    assert RequestOk(s.sh, s.drawnBy, r, s.reqs[r]);
  }

  lemma DropKeeps(s: State, r: nat)
    requires Inv(s) && InRegion(s, r) && !TryActivate(s.sh, r, s.reqs[r].ticket.value).1.Sleep?
    requires TryActivate(s.sh, r, s.reqs[r].ticket.value).1 != Activate
    ensures Inv(Attempt(s, r))
  {
    hide Increasing;
    assert RequestOk(s.sh, s.drawnBy, r, s.reqs[r]);
  }

  lemma AttemptKeeps(s: State, r: nat)
    requires Inv(s) && InRegion(s, r)
    ensures Inv(Attempt(s, r))
  {
    hide Inv, Attempt, TryActivate;
    if TryActivate(s.sh, r, s.reqs[r].ticket.value).1 == Activate {
      ActivationKeeps(s, r);
    } else if TryActivate(s.sh, r, s.reqs[r].ticket.value).1 == Sleep {
      SleepKeeps(s, r);
    } else {
      DropKeeps(s, r);
    }
  }

  /** Drawing a ticket, as if the request already stood in the wait loop. */
  function DrawnWaiting(s: State, r: nat): State
    requires r < |s.reqs|
  {
    var d := Draw(s, r);
    SetReq(d, r, d.reqs[r].(phase := Waiting))
  }

  lemma DrawKeeps(s: State, r: nat)
    requires Inv(s) && At(s, r, Started)
    ensures Inv(DrawnWaiting(s, r))
  {
    hide Increasing;
    assert RequestOk(s.sh, s.drawnBy, r, s.reqs[r]);
  }

  lemma EnterIsDrawThenAttempt(s: State, r: nat)
    requires At(s, r, Started)
    ensures Apply(s, Enter(r)) == Attempt(DrawnWaiting(s, r), r)
  {
    var q := Attempt(Draw(s, r), r).reqs[r];
    assert Draw(s, r).reqs[r := q] == DrawnWaiting(s, r).reqs[r := q];
  }

  lemma EnterKeeps(s: State, r: nat)
    requires Inv(s) && At(s, r, Started)
    ensures Inv(Apply(s, Enter(r)))
  {
    DrawKeeps(s, r);
    AttemptKeeps(DrawnWaiting(s, r), r);
    EnterIsDrawThenAttempt(s, r);
    hide *;
  }

  lemma LeaveKeeps(s: State, r: nat)
    requires Inv(s) && Enabled(s, Leave(r))
    ensures Inv(Apply(s, Leave(r)))
  {
  }

  lemma CancelKeeps(s: State)
    requires Inv(s)
    ensures Inv(Apply(s, CancelDocuments))
  {
  }

  lemma ArrivalKeeps(s: State)
    requires Inv(s)
    ensures Inv(Apply(s, NewRequest))
  {
  }

  lemma WakingKeeps(s: State, r: nat)
    requires Inv(s) && Enabled(s, WakeSpuriously(r))
    ensures Inv(Apply(s, WakeSpuriously(r)))
  {
  }

  lemma TestTokenKeeps(s: State, r: nat)
    requires Inv(s) && Enabled(s, TestToken(r))
    ensures Inv(Apply(s, TestToken(r)))
  {
    hide Increasing;
  }

  lemma ChildEndsKeeps(s: State, r: nat, cancelled: bool)
    requires Inv(s) && Enabled(s, ChildEnds(r, cancelled))
    ensures Inv(Apply(s, ChildEnds(r, cancelled)))
  {
    hide Increasing;
  }

  lemma StepKeepsInv(s: State, a: Action)
    requires Inv(s) && Enabled(s, a)
    ensures Inv(Apply(s, a))
  {
    hide Inv, Attempt;
    match a {
      case Enter(r) => EnterKeeps(s, r);
      case Recheck(r) => AttemptKeeps(s, r);
      case Leave(r) => LeaveKeeps(s, r);
      case CancelDocuments => CancelKeeps(s);
      case NewRequest => ArrivalKeeps(s);
      case WakeSpuriously(r) => WakingKeeps(s, r);
      case TestToken(r) => TestTokenKeeps(s, r);
      case ChildEnds(r, cancelled) => ChildEndsKeeps(s, r, cancelled);
    }
  }

  // ------------------------------------------------------------ runs

  /** A run: any interleaving of any number of calls, from a fresh controller. */
  ghost predicate IsRun(run: seq<State>, acts: seq<Action>) {
    && |run| == |acts| + 1
    && run[0] == INITIAL
    && forall i | 0 <= i < |acts| :: Enabled(run[i], acts[i]) && run[i + 1] == Apply(run[i], acts[i])
  }

  lemma {:induction false} RunKeepsInv(run: seq<State>, acts: seq<Action>, i: nat)
    requires IsRun(run, acts) && i < |run|
    ensures Inv(run[i])
  {
    if i > 0 {
      RunKeepsInv(run, acts, i - 1);
      StepKeepsInv(run[i - 1], acts[i - 1]);
    }
  }

  /** One owner of the slot; its token is the installed one, and is set exactly when its ticket was cancelled. */
  lemma SlotIsExclusive(run: seq<State>, acts: seq<Action>, i: nat, r: nat, q: nat)
    requires IsRun(run, acts) && i < |run| && r < |run[i].reqs| && q < |run[i].reqs|
    ensures
      var s := run[i];
      OwnsSlot(s.reqs[r].phase) ==>
        && (OwnsSlot(s.reqs[q].phase) ==> r == q)
        && s.sh.isActive && s.sh.activeCancel == Some(r)
        && s.reqs[r].ticket == Some(s.sh.servingTicket)
        && (s.reqs[r].token <==> s.reqs[r].ticket.value < s.sh.cancelledBefore)
  {
    RunKeepsInv(run, acts, i);
    assert RequestOk(run[i].sh, run[i].drawnBy, r, run[i].reqs[r]);
    assert RequestOk(run[i].sh, run[i].drawnBy, q, run[i].reqs[q]);
  }

  /** The cancellation test after the wait loop never succeeds: an idle queue serves no cancelled ticket. */
  lemma PostLoopDropIsUnreachable(run: seq<State>, acts: seq<Action>, i: nat)
    requires IsRun(run, acts) && i < |run|
    ensures !run[i].sh.isActive ==> run[i].sh.cancelledBefore <= run[i].sh.servingTicket
    ensures forall r: nat, t: nat :: TryActivate(run[i].sh, r, t).1 != DroppedServing
  {
    RunKeepsInv(run, acts, i);
  }

  // ------------------------------------------------------------ service in order

  lemma RequestIsOk(s: State, r: nat)
    requires Inv(s) && r < |s.reqs|
    ensures RequestOk(s.sh, s.drawnBy, r, s.reqs[r])
  {
  }

  /** What an activation does. */
  lemma ActivationTakesSlot(s: State, a: Action)
    requires Enabled(s, a) && Apply(s, a).activations != s.activations
    ensures a.Enter? || a.Recheck?
    ensures
      var next := Apply(s, a);
      && a.r < |next.reqs| && OwnsSlot(next.reqs[a.r].phase) && next.reqs[a.r].ticket.Some?
      && next.activations == s.activations + [next.reqs[a.r].ticket.value]
      && next.sh.cancelledBefore == s.sh.cancelledBefore <= next.reqs[a.r].ticket.value
  {
  }

  /** The tickets recorded are those of the requests that take the slot, when they take it. */
  lemma TakingIsRecorded(s: State, a: Action, r: nat)
    requires Enabled(s, a) && r < |s.reqs| && !OwnsSlot(s.reqs[r].phase) && OwnsSlot(Apply(s, a).reqs[r].phase)
    ensures Apply(s, a).reqs[r].ticket.Some?
    ensures Apply(s, a).activations == s.activations + [Apply(s, a).reqs[r].ticket.value]
  {
  }

  /** Each activation takes the front: every earlier ticket is over, or waits cancelled. */
  lemma ActivationIsInOrder(s: State, a: Action, q: nat)
    requires Inv(s) && Enabled(s, a) && Apply(s, a).activations != s.activations
    ensures (a.Enter? || a.Recheck?) && |Apply(s, a).activations| == |s.activations| + 1
    ensures
      var next := Apply(s, a);
      var t := next.activations[|s.activations|];
      && next.activations == s.activations + [t]
      && s.sh.cancelledBefore <= t && OwnsSlot(next.reqs[a.r].phase) && next.reqs[a.r].ticket == Some(t)
      && (q < |next.reqs| && next.reqs[q].ticket.Some? && next.reqs[q].ticket.value < t ==>
            next.reqs[q].phase.Done? ||
            (next.reqs[q].phase.Waiting? && next.reqs[q].ticket.value < next.sh.cancelledBefore))
  {
    ActivationTakesSlot(s, a);
    StepKeepsInv(s, a);
    hide Inv, Apply, Enabled;
    RequestIsOk(Apply(s, a), a.r);
    if q < |Apply(s, a).reqs| {
      RequestIsOk(Apply(s, a), q);
    }
  }

  lemma {:induction false} ActivationsIncrease(run: seq<State>, acts: seq<Action>, i: nat, j: nat)
    requires IsRun(run, acts) && i <= j < |run|
    ensures Increasing(run[j].activations) && run[i].activations <= run[j].activations
    decreases j
  {
    hide Apply, Enabled, RequestOk, SleeperOk;
    RunKeepsInv(run, acts, j);
    if i < j {
      ActivationsIncrease(run, acts, i, j - 1);
      RunKeepsInv(run, acts, j - 1);
      if run[j].activations != run[j - 1].activations {
        ActivationIsInOrder(run[j - 1], acts[j - 1], 0);
      }
    }
  }

  lemma DropsStay(s: State, a: Action)
    requires Inv(s) && Enabled(s, a)
    ensures s.sh.cancelledBefore <= Apply(s, a).sh.cancelledBefore
  {
  }

  /** A ticket that a cancellation caught before it ran never runs. */
  lemma {:induction false} CancelledNeverActivates(run: seq<State>, acts: seq<Action>, i: nat, j: nat, t: nat)
    requires IsRun(run, acts) && i <= j < |run|
    requires t < run[i].sh.cancelledBefore && t !in run[i].activations
    ensures t < run[j].sh.cancelledBefore && t !in run[j].activations
    decreases j
  {
    hide Apply, Enabled, Inv;
    if i < j {
      CancelledNeverActivates(run, acts, i, j - 1, t);
      RunKeepsInv(run, acts, j - 1);
      DropsStay(run[j - 1], acts[j - 1]);
      if run[j].activations != run[j - 1].activations {
        ActivationIsInOrder(run[j - 1], acts[j - 1], 0);
      }
    }
  }

  /** Covered by a cancellation before its child started: it waits, is marked, or is over as cancelled. */
  predicate Dropped(s: State, r: nat) {
    && r < |s.reqs| && s.reqs[r].ticket.Some? && s.reqs[r].ticket.value < s.sh.cancelledBefore
    && match s.reqs[r].phase
       case Waiting => true
       case Armed => s.reqs[r].token
       case Returned | Done => s.reqs[r].outcome == Cancelled
       case _ => false
  }

  /** The request whose step it is. */
  function Requester(a: Action): Option<nat> {
    match a
    case Enter(r) => Some(r)
    case Recheck(r) => Some(r)
    case TestToken(r) => Some(r)
    case ChildEnds(r, _) => Some(r)
    case Leave(r) => Some(r)
    case _ => None
  }

  /** A step changes nothing of another request but its token, which it can only set. */
  lemma OthersStay(s: State, a: Action, r: nat)
    requires Enabled(s, a) && r < |s.reqs| && Requester(a) != Some(r)
    ensures r < |Apply(s, a).reqs| && (s.reqs[r].token ==> Apply(s, a).reqs[r].token)
    ensures Apply(s, a).reqs[r] == s.reqs[r].(token := Apply(s, a).reqs[r].token)
  {
  }

  lemma OwnStepStaysDropped(s: State, a: Action, r: nat)
    requires Inv(s) && Enabled(s, a) && Dropped(s, r) && Requester(a) == Some(r)
    ensures Dropped(Apply(s, a), r)
  {
    RequestIsOk(s, r);
    hide Inv, SleeperOk;
  }

  lemma DroppedStays(s: State, a: Action, r: nat)
    requires Inv(s) && Enabled(s, a) && Dropped(s, r)
    ensures Dropped(Apply(s, a), r)
  {
    DropsStay(s, a);
    hide Apply, Enabled, Inv;
    if Requester(a) == Some(r) {
      OwnStepStaysDropped(s, a, r);
    } else {
      OthersStay(s, a, r);
    }
  }

  /** A request whose child has not started when a cancellation comes never starts it, and ends cancelled. */
  lemma {:induction false} CancelledNeverSpawns(run: seq<State>, acts: seq<Action>, i: nat, j: nat, r: nat)
    requires IsRun(run, acts) && i < j < |run| && acts[i] == CancelDocuments
    requires r < |run[i].reqs| && (run[i].reqs[r].phase.Waiting? || run[i].reqs[r].phase.Armed?)
    ensures Dropped(run[j], r)
    decreases j
  {
    RunKeepsInv(run, acts, j - 1);
    if i < j - 1 {
      CancelledNeverSpawns(run, acts, i, j - 1, r);
      DroppedStays(run[j - 1], acts[j - 1], r);
    } else {
      RequestIsOk(run[i], r);
    }
  }

  // ------------------------------------------------------------ what a call returns

  /** The inner call is over. */
  predicate IsOver(p: Phase) {
    p.Returned? || p.Done?
  }

  /** This step of request `r` makes it return this. */
  predicate Decides(s: State, a: Action, r: nat, outcome: Outcome) {
    && r < |s.reqs|
    && match outcome
       case NoneYet => false
       case Cancelled => CancelledBy(s, a, r)
       case OtherResult => a == ChildEnds(r, false)
  }

  predicate CancelledBy(s: State, a: Action, r: nat)
    requires r < |s.reqs|
  {
    match a
    case Enter(q) => q == r && s.sh.nextTicket < s.sh.cancelledBefore
    case Recheck(q) => q == r && s.reqs[r].ticket.Some? && s.reqs[r].ticket.value < s.sh.cancelledBefore
    case TestToken(q) => q == r && s.reqs[r].token
    case ChildEnds(q, cancelled) => q == r && cancelled
    case _ => false
  }

  predicate OutcomeOk(q: Request) {
    q.outcome == NoneYet <==> !IsOver(q.phase)
  }

  lemma OwnOutcome(s: State, a: Action, r: nat, outcome: Outcome)
    requires Enabled(s, a) && r < |s.reqs| && OutcomeOk(s.reqs[r]) && Requester(a) == Some(r)
    ensures r < |Apply(s, a).reqs| && OutcomeOk(Apply(s, a).reqs[r])
    ensures outcome != NoneYet ==>
      (Apply(s, a).reqs[r].outcome == outcome <==> s.reqs[r].outcome == outcome || Decides(s, a, r, outcome))
  {
  }

  lemma OnlyOwnStepsDecide(s: State, a: Action, r: nat, outcome: Outcome)
    requires Decides(s, a, r, outcome)
    ensures r < |s.reqs| && Requester(a) == Some(r)
  {
  }

  lemma OutcomeStep(s: State, a: Action, r: nat, outcome: Outcome)
    requires Enabled(s, a) && r < |s.reqs| && OutcomeOk(s.reqs[r])
    ensures r < |Apply(s, a).reqs| && OutcomeOk(Apply(s, a).reqs[r])
    ensures outcome != NoneYet ==>
      (Apply(s, a).reqs[r].outcome == outcome <==> s.reqs[r].outcome == outcome || Decides(s, a, r, outcome))
  {
    hide Apply, Enabled, Decides, Requester;
    if Requester(a) == Some(r) {
      OwnOutcome(s, a, r, outcome);
    } else {
      OthersStay(s, a, r);
      if Decides(s, a, r, outcome) {
        OnlyOwnStepsDecide(s, a, r, outcome);
      }
    }
  }

  lemma Newcomer(s: State, a: Action, r: nat)
    requires Enabled(s, a) && |s.reqs| <= r < |Apply(s, a).reqs|
    ensures OutcomeOk(Apply(s, a).reqs[r]) && Apply(s, a).reqs[r].outcome == NoneYet
  {
  }

  lemma NoneLeaves(s: State, a: Action)
    requires Enabled(s, a)
    ensures |s.reqs| <= |Apply(s, a).reqs|
  {
  }

  ghost predicate Decided(run: seq<State>, acts: seq<Action>, j: nat, r: nat, outcome: Outcome)
    requires IsRun(run, acts) && j < |run|
  {
    exists k :: 0 <= k < j && Decides(run[k], acts[k], r, outcome)
  }

  lemma {:induction false} UndecidedBefore(run: seq<State>, acts: seq<Action>, j: nat, r: nat, outcome: Outcome)
    requires IsRun(run, acts) && j < |run| && |run[j].reqs| <= r
    ensures !Decided(run, acts, j, r, outcome)
    decreases j
  {
    hide Apply, Enabled;
    if j > 0 {
      NoneLeaves(run[j - 1], acts[j - 1]);
      UndecidedBefore(run, acts, j - 1, r, outcome);
    }
  }

  /** A call's result is its child's own or a cancellation exactly when one of its steps made it so. */
  lemma {:induction false} OutcomeIsExact(run: seq<State>, acts: seq<Action>, j: nat, r: nat, outcome: Outcome)
    requires IsRun(run, acts) && j < |run| && r < |run[j].reqs|
    ensures OutcomeOk(run[j].reqs[r])
    ensures outcome != NoneYet ==> (run[j].reqs[r].outcome == outcome <==> Decided(run, acts, j, r, outcome))
    decreases j
  {
    hide Apply, Enabled, CancelledBy, Requester, OutcomeOk;
    if j > 0 {
      var s, a := run[j - 1], acts[j - 1];
      assert run[j] == Apply(s, a);
      if r >= |s.reqs| {
        Newcomer(s, a, r);
        UndecidedBefore(run, acts, j - 1, r, outcome);
      } else {
        OutcomeIsExact(run, acts, j - 1, r, outcome);
        OutcomeStep(s, a, r, outcome);
      }
      assert Decided(run, acts, j, r, outcome) <==>
        Decided(run, acts, j - 1, r, outcome) || Decides(s, a, r, outcome);
    }
  }

  /** A cancellation that comes after request `r` has drawn its ticket. */
  predicate Disturbs(s: State, a: Action, r: nat) {
    a.CancelDocuments? && r < |s.reqs| && s.reqs[r].ticket.Some?
  }

  predicate Undisturbed(s: State, r: nat) {
    r < |s.reqs| ==>
      && !s.reqs[r].token && s.reqs[r].outcome != Cancelled
      && (s.reqs[r].ticket.Some? ==> s.reqs[r].ticket.value >= s.sh.cancelledBefore)
  }

  lemma OwnStepStaysUndisturbed(s: State, a: Action, r: nat)
    requires Enabled(s, a) && r < |s.reqs| && Undisturbed(s, r) && Requester(a) == Some(r)
    requires RequestOk(s.sh, s.drawnBy, r, s.reqs[r]) && s.sh.cancelledBefore <= s.sh.nextTicket
    ensures Undisturbed(Apply(s, a), r)
  {
  }

  lemma OtherStepStaysUndisturbed(s: State, a: Action, r: nat)
    requires Enabled(s, a) && r < |s.reqs| && Undisturbed(s, r) && !Disturbs(s, a, r) && Requester(a) != Some(r)
    requires RequestOk(s.sh, s.drawnBy, r, s.reqs[r])
    ensures Undisturbed(Apply(s, a), r)
  {
  }

  lemma StepStaysUndisturbed(s: State, a: Action, r: nat)
    requires Inv(s) && Enabled(s, a) && Undisturbed(s, r) && !Disturbs(s, a, r)
    ensures Undisturbed(Apply(s, a), r)
  {
    if r >= |s.reqs| {
      hide Inv, Attempt, CancelStep;
    } else {
      RequestIsOk(s, r);
      hide Apply, Enabled, Undisturbed, RequestOk, SleeperOk;
      if Requester(a) == Some(r) {
        OwnStepStaysUndisturbed(s, a, r);
      } else {
        OtherStepStaysUndisturbed(s, a, r);
      }
    }
  }

  /** No request is cancelled spuriously: a cancellation came after it had drawn its ticket. */
  lemma {:induction false} CancelledHasCause(run: seq<State>, acts: seq<Action>, j: nat, r: nat)
    requires IsRun(run, acts) && j < |run|
    ensures Undisturbed(run[j], r) || exists k :: 0 <= k < j && Disturbs(run[k], acts[k], r)
    ensures r < |run[j].reqs| && run[j].reqs[r].outcome == Cancelled ==>
      exists k :: 0 <= k < j && Disturbs(run[k], acts[k], r)
    decreases j
  {
    hide Inv, Apply, Enabled, Disturbs;
    if j > 0 {
      CancelledHasCause(run, acts, j - 1, r);
      RunKeepsInv(run, acts, j - 1);
      if Undisturbed(run[j - 1], r) && !Disturbs(run[j - 1], acts[j - 1], r) {
        StepStaysUndisturbed(run[j - 1], acts[j - 1], r);
      }
    }
  }

  /** The child runs, or the call is over: with the child's own result, or as cancelled through its token. */
  predicate Ran(q: Request) {
    q.phase.Spawned? || (IsOver(q.phase) && (q.outcome == OtherResult || (q.outcome == Cancelled && q.token)))
  }

  lemma OwnStepStaysRan(s: State, a: Action, r: nat)
    requires Enabled(s, a) && r < |s.reqs| && Ran(s.reqs[r]) && Requester(a) == Some(r)
    ensures r < |Apply(s, a).reqs| && Ran(Apply(s, a).reqs[r])
  {
  }

  /** A request whose child started has the child's own result in the end unless its token is set. */
  lemma {:induction false} UnmarkedIsAnswered(run: seq<State>, acts: seq<Action>, k: nat, j: nat, r: nat)
    requires IsRun(run, acts) && k <= j < |run| && At(run[k], r, Spawned)
    ensures r < |run[j].reqs| && Ran(run[j].reqs[r])
    decreases j
  {
    hide Apply, Enabled, IsOver;
    if k < j {
      UnmarkedIsAnswered(run, acts, k, j - 1, r);
      if Requester(acts[j - 1]) == Some(r) {
        OwnStepStaysRan(run[j - 1], acts[j - 1], r);
      } else {
        OthersStay(run[j - 1], acts[j - 1], r);
      }
    }
  }

  // ------------------------------------------------------------ the queue never stalls

  /** A drawn ticket that is neither over nor cancelled nor running. */
  predicate WaitsUncancelled(s: State, r: nat) {
    At(s, r, Waiting) && s.reqs[r].ticket.Some? && s.reqs[r].ticket.value >= s.sh.cancelledBefore
  }

  /**
   If the slot is free and someone waits, the holder of the serving ticket is awake and its next step
   activates it.
  */
  lemma NeverStalls(run: seq<State>, acts: seq<Action>, i: nat, r: nat)
    requires IsRun(run, acts) && i < |run| && WaitsUncancelled(run[i], r) && !run[i].sh.isActive
    ensures
      var s := run[i];
      exists h :: && 0 <= h < |s.reqs| && s.reqs[h].ticket == Some(s.sh.servingTicket)
                  && WaitsUncancelled(s, h) && h !in s.asleep && Enabled(s, Recheck(h))
                  && OwnsSlot(Apply(s, Recheck(h)).reqs[h].phase)
  {
    var s := run[i];
    RunKeepsInv(run, acts, i);
    RequestIsOk(s, r);
    var h := s.drawnBy[s.sh.servingTicket];
    RequestIsOk(s, h);
    assert h in s.asleep ==> SleeperOk(s, h);
    assert Enabled(s, Recheck(h)) && OwnsSlot(Apply(s, Recheck(h)).reqs[h].phase);
  }

  /** With no request between its draw and its end, every ticket drawn has been served or dropped. */
  lemma NoTicketIsLost(run: seq<State>, acts: seq<Action>, i: nat)
    requires IsRun(run, acts) && i < |run|
    requires forall r | 0 <= r < |run[i].reqs| :: !Live(run[i].reqs[r].phase)
    ensures !run[i].sh.isActive && run[i].sh.servingTicket == run[i].sh.nextTicket
  {
    var s := run[i];
    RunKeepsInv(run, acts, i);
    if s.sh.servingTicket < s.sh.nextTicket {
      var h := s.drawnBy[s.sh.servingTicket];
      RequestIsOk(s, h);
    }
  }

  /** The next step a request takes when nothing stops it. */
  function NextOf(s: State, r: nat): Action
    requires r < |s.reqs| && s.reqs[r].phase != Done
  {
    match s.reqs[r].phase
    case Started => Enter(r)
    case Waiting => Recheck(r)
    case Armed => TestToken(r)
    case Spawned => ChildEnds(r, false)
    case _ => Leave(r)
  }

  /** No request is ever stuck: it can step, or it sleeps uncancelled behind another that can. */
  lemma NeverStuck(run: seq<State>, acts: seq<Action>, i: nat, r: nat)
    requires IsRun(run, acts) && i < |run| && r < |run[i].reqs| && run[i].reqs[r].phase != Done
    ensures r !in run[i].asleep ==> Enabled(run[i], NextOf(run[i], r))
    ensures r in run[i].asleep ==>
              && WaitsUncancelled(run[i], r)
              && exists h :: && 0 <= h < |run[i].reqs| && run[i].reqs[h].phase != Done
                             && run[i].reqs[h].ticket == Some(run[i].sh.servingTicket)
                             && h !in run[i].asleep && Enabled(run[i], NextOf(run[i], h))
  {
    var s := run[i];
    RunKeepsInv(run, acts, i);
    RequestIsOk(s, r);
    if r in s.asleep {
      assert SleeperOk(s, r);
      var h := s.drawnBy[s.sh.servingTicket];
      RequestIsOk(s, h);
      assert h in s.asleep ==> SleeperOk(s, h);
      assert h !in s.asleep && Enabled(s, NextOf(s, h));
    }
  }

  // ------------------------------------------------------------ the simple queue it implements

  /** A first-in first-out queue whose cancellation empties it. */
  datatype Fifo = Fifo(waiting: seq<nat>, running: Option<nat>, marked: bool, drawn: nat)

  function Range(lo: nat, hi: nat): (t: seq<nat>)
    ensures |t| == if lo < hi then hi - lo else 0
    ensures forall i | 0 <= i < |t| :: t[i] == lo + i
  {
    if lo < hi then seq(hi - lo, i requires i >= 0 => lo + i) else []
  }

  function Abstract(s: State): Fifo {
    Fifo(Range(Front(s.sh), s.sh.nextTicket),
         if s.sh.isActive then Some(s.sh.servingTicket) else None,
         s.sh.isActive && s.sh.servingTicket < s.sh.cancelledBefore,
         s.sh.nextTicket)
  }

  function Arrive(f: Fifo): Fifo {
    f.(waiting := f.waiting + [f.drawn], drawn := f.drawn + 1)
  }

  function Start(f: Fifo): Fifo
    requires f.waiting != []
  {
    f.(waiting := f.waiting[1..], running := Some(f.waiting[0]), marked := false)
  }

  /** What a region of a request with this ticket does to the simple queue. */
  function FifoApply(f: Fifo, a: Action, ticket: Option<nat>): Fifo {
    match a
    case Enter(_) => if f.waiting == [] && f.running.None? then Start(Arrive(f)) else Arrive(f)
    case Recheck(_) => if f.running.None? && f.waiting != [] && ticket == Some(f.waiting[0]) then Start(f) else f
    case Leave(_) => f.(running := None, marked := false)
    case CancelDocuments => f.(waiting := [], marked := f.running.Some?)
    case _ => f
  }

  function TicketOf(s: State, a: Action): Option<nat>
    requires Enabled(s, a)
  {
    if a.Recheck? then s.reqs[a.r].ticket else None
  }

  lemma EnterRefinesFifo(s: State, r: nat)
    requires Inv(s) && At(s, r, Started)
    ensures Abstract(Apply(s, Enter(r))) == FifoApply(Abstract(s), Enter(r), None)
  {
    RequestIsOk(s, r);
    hide RequestOk, SleeperOk;
  }

  lemma RecheckRefinesFifo(s: State, r: nat)
    requires Inv(s) && Enabled(s, Recheck(r))
    ensures Abstract(Apply(s, Recheck(r))) == FifoApply(Abstract(s), Recheck(r), s.reqs[r].ticket)
  {
    RequestIsOk(s, r);
    hide SleeperOk;
  }

  lemma LeaveRefinesFifo(s: State, r: nat)
    requires Inv(s) && Enabled(s, Leave(r))
    ensures Abstract(Apply(s, Leave(r))) == FifoApply(Abstract(s), Leave(r), None)
  {
    RequestIsOk(s, r);
    hide RequestOk, SleeperOk;
  }

  /** Every step of the ticket queue does to the simple queue what its region says. */
  lemma StepRefinesFifo(s: State, a: Action)
    requires Inv(s) && Enabled(s, a)
    ensures Abstract(Apply(s, a)) == FifoApply(Abstract(s), a, TicketOf(s, a))
  {
    match a {
      case Enter(r) => EnterRefinesFifo(s, r);
      case Recheck(r) => RecheckRefinesFifo(s, r);
      case Leave(r) => LeaveRefinesFifo(s, r);
      case _ => hide RequestOk, SleeperOk, Attempt;
    }
  }

  lemma RunRefinesFifo(run: seq<State>, acts: seq<Action>, i: nat)
    requires IsRun(run, acts) && i < |acts|
    ensures Abstract(run[0]) == Fifo([], None, false, 0)
    ensures Abstract(run[i + 1]) == FifoApply(Abstract(run[i]), acts[i], TicketOf(run[i], acts[i]))
  {
    RunKeepsInv(run, acts, i);
    StepRefinesFifo(run[i], acts[i]);
  }
}
