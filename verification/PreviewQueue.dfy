/** The theme runner's preview queue. */
module PreviewQueue {
  /*
   The application-theme runner's preview queue: the newest ticket wins, and every request first
   cancels whatever runs. Unlike the scene runner it has no epoch, so a cancellation does not stop a
   request whose token it finds not installed and whose ticket it finds no longer pending.
  */

  import opened Options
  import opened Tickets

  datatype Shared = Shared(
    activeCancel: Option<nat>,   // the request whose cancel token is installed
    isActive: bool,
    pendingTicket: Option<nat>,
    nextTicket: nat)

  const FRESH: Shared := Shared(None, false, None, 0)

  datatype Verdict = Superseded | Sleep | Activate

  /** From a test of the wait loop to the end of the region. */
  function TryActivate(sh: Shared, ticket: nat): (Shared, Verdict) {
    if sh.pendingTicket != Some(ticket) then (sh, Superseded)
    else if sh.isActive then (sh, Sleep)
    else (sh.(isActive := true, pendingTicket := None), Activate)
  }

  /** The controller, updated in place one region at a time. */
  class PreviewController {
    var activeCancel: Option<nat>
    var isActive: bool
    var pendingTicket: Option<nat>
    var nextTicket: nat

    function View(): Shared
      reads this
    {
      Shared(activeCancel, isActive, pendingTicket, nextTicket)
    }

    constructor ()
      ensures View() == FRESH
    {
      activeCancel, isActive, pendingTicket, nextTicket := None, false, None, 0;
    }

    method Attempt(ticket: nat) returns (verdict: Verdict)
      modifies `isActive, `pendingTicket
      ensures (View(), verdict) == TryActivate(old(View()), ticket)
    {
      if isActive || pendingTicket != Some(ticket) {
        return if pendingTicket != Some(ticket) then Superseded else Sleep;
      }
      isActive := true;
      pendingTicket := None;
      return Activate;
    }

    method Enter() returns (ticket: nat, verdict: Verdict)
      modifies `isActive, `pendingTicket, `nextTicket
      ensures ticket == old(nextTicket)
      ensures
        var drawn := old(View()).(nextTicket := ticket + 1, pendingTicket := Some(ticket));
        (View(), verdict) == TryActivate(drawn, ticket)
    {
      ticket := nextTicket;
      nextTicket := nextTicket + 1;
      pendingTicket := Some(ticket);
      verdict := Attempt(ticket);
    }

    method Install(owner: nat)
      modifies `activeCancel
      ensures View() == old(View()).(activeCancel := Some(owner))
    {
      activeCancel := Some(owner);
    }

    /** Removes the caller's own token and leaves any other. */
    method Uninstall(owner: nat)
      modifies `activeCancel
      ensures View() ==
        old(View()).(activeCancel := if old(activeCancel) == Some(owner) then None else old(activeCancel))
    {
      if activeCancel == Some(owner) {
        activeCancel := None;
      }
    }

    method Release()
      modifies `isActive
      ensures View() == old(View()).(isActive := false)
    {
      isActive := false;
    }

    method ClearPending()
      modifies `pendingTicket
      ensures View() == old(View()).(pendingTicket := None)
    {
      pendingTicket := None;
    }
  }

  // ------------------------------------------------------------ concurrent calls

  datatype Phase =
    | Started      // passed the checks made before any lock
    | Signalled    // its own cancellation stored through the installed token
    | Cleared      // ... and cleared the pending ticket
    | Waiting
    | Activated    // owns the slot, token not installed
    | Armed        // token installed, about to test it and spawn
    | Spawned
    | Returned
    | Uninstalled
    | Done

  /** What a call returns; `OtherResult` is whatever its child ended with. */
  datatype Outcome = NoneYet | Cancelled | OtherResult

  datatype Request = Request(phase: Phase, ticket: Option<nat>, token: bool, outcome: Outcome)

  datatype State = State(
    sh: Shared,
    reqs: seq<Request>,
    asleep: set<nat>,
    activations: seq<nat>,
    drawnBy: seq<nat>,
    holder: Option<nat>)

  const INITIAL: State := State(FRESH, [], {}, [], [], None)

  /** `Signal(None)` and `Clear(None)` are the two regions of a `cancel_active` from outside. */
  datatype Action =
    | NewRequest
    | Signal(caller: Option<nat>)
    | Clear(caller: Option<nat>)
    | Enter(r: nat)
    | WakeSpuriously(r: nat)
    | Recheck(r: nat)
    | Install(r: nat)
    | TestToken(r: nat)
    | ChildEnds(r: nat, cancelled: bool)
    | Uninstall(r: nat)
    | Release(r: nat)

  predicate At(s: State, r: nat, phase: Phase) {
    r < |s.reqs| && s.reqs[r].phase == phase
  }

  predicate Enabled(s: State, a: Action) {
    match a
    case NewRequest => true
    case Signal(caller) => caller.Some? ==> At(s, caller.value, Started)
    case Clear(caller) => caller.Some? ==> At(s, caller.value, Signalled)
    case Enter(r) => At(s, r, Cleared)
    case WakeSpuriously(r) => r in s.asleep
    case Recheck(r) => At(s, r, Waiting) && r !in s.asleep && s.reqs[r].ticket.Some?
    case Install(r) => At(s, r, Activated)
    case TestToken(r) => At(s, r, Armed)
    case ChildEnds(r, cancelled) => At(s, r, Spawned) && (cancelled ==> s.reqs[r].token)
    case Uninstall(r) => At(s, r, Returned)
    case Release(r) => At(s, r, Uninstalled)
  }

  function Move(s: State, r: nat, phase: Phase): State
    requires r < |s.reqs|
  {
    s.(reqs := s.reqs[r := s.reqs[r].(phase := phase)])
  }

  /** The call's result is decided. */
  function End(s: State, r: nat, phase: Phase, outcome: Outcome): State
    requires r < |s.reqs|
  {
    s.(reqs := s.reqs[r := s.reqs[r].(phase := phase, outcome := outcome)])
  }

  function Mark(s: State): State {
    match s.sh.activeCancel
    case Some(r) => if r < |s.reqs| then s.(reqs := s.reqs[r := s.reqs[r].(token := true)]) else s
    case None => s
  }

  function Attempt(s: State, r: nat): State
    requires r < |s.reqs| && s.reqs[r].ticket.Some?
  {
    var t := s.reqs[r].ticket.value;
    var (sh, verdict) := TryActivate(s.sh, t);
    match verdict
    case Superseded => End(s, r, Done, Cancelled).(sh := sh)
    case Sleep => Move(s, r, Waiting).(sh := sh, asleep := s.asleep + {r})
    case Activate => Move(s, r, Activated).(sh := sh, activations := s.activations + [t], holder := Some(r))
  }

  /** Draws a ticket and publishes it, waking every sleeper. */
  function Draw(s: State, r: nat): State
    requires r < |s.reqs|
  {
    var t := s.sh.nextTicket;
    s.(reqs := s.reqs[r := s.reqs[r].(ticket := Some(t))], asleep := {}, drawnBy := s.drawnBy + [r],
       sh := s.sh.(nextTicket := t + 1, pendingTicket := Some(t)))
  }

  function Apply(s: State, a: Action): State
    requires Enabled(s, a)
  {
    match a
    case NewRequest => s.(reqs := s.reqs + [Request(Started, None, false, NoneYet)])
    case Signal(caller) =>
      var s1 := Mark(s);
      if caller.Some? then Move(s1, caller.value, Signalled) else s1
    case Clear(caller) =>
      var s1 := s.(sh := s.sh.(pendingTicket := None), asleep := {});
      if caller.Some? then Move(s1, caller.value, Cleared) else s1
    case Enter(r) => Attempt(Draw(s, r), r)
    case WakeSpuriously(r) => s.(asleep := s.asleep - {r})
    case Recheck(r) => Attempt(s, r)
    case Install(r) => Move(s, r, Armed).(sh := s.sh.(activeCancel := Some(r)))
    case TestToken(r) => if s.reqs[r].token then End(s, r, Returned, Cancelled) else Move(s, r, Spawned)
    case ChildEnds(r, cancelled) => End(s, r, Returned, if cancelled then Cancelled else OtherResult)
    case Uninstall(r) =>
      Move(s, r, Uninstalled)
        .(sh := s.sh.(activeCancel := if s.sh.activeCancel == Some(r) then None else s.sh.activeCancel))
    case Release(r) => Move(s, r, Done).(sh := s.sh.(isActive := false), asleep := {}, holder := None)
  }

  // ------------------------------------------------------------ the invariant

  predicate OwnsToken(p: Phase) {
    p.Armed? || p.Spawned? || p.Returned?
  }

  predicate OwnsSlot(p: Phase) {
    p.Activated? || OwnsToken(p) || p.Uninstalled?
  }

  ghost predicate SharedOk(s: State) {
    && (s.sh.isActive <==> s.holder.Some?)
    && (s.holder.Some? ==> s.holder.value < |s.reqs|)
    && (s.sh.activeCancel.Some? ==> s.sh.activeCancel.value < |s.reqs|)
    && s.sh.nextTicket == |s.drawnBy|
    && (s.sh.pendingTicket.Some? ==> s.sh.pendingTicket.value + 1 == s.sh.nextTicket)
    && Increasing(s.activations)
    && (forall t | t in s.activations :: t < s.sh.nextTicket)
    && (s.sh.pendingTicket.Some? ==> s.sh.pendingTicket.value !in s.activations)
  }

  ghost predicate RequestOk(s: State, r: nat, q: Request) {
    && (OwnsSlot(q.phase) <==> s.holder == Some(r))
    && (OwnsToken(q.phase) <==> s.sh.activeCancel == Some(r))
    && (q.ticket.Some? ==> q.ticket.value < |s.drawnBy| && s.drawnBy[q.ticket.value] == r)
    && (q.phase.Waiting? || OwnsSlot(q.phase) ==> q.ticket.Some?)
    && (OwnsSlot(q.phase) ==> q.ticket.value in s.activations)
    && (!OwnsToken(q.phase) && !q.phase.Uninstalled? && !q.phase.Done? ==> !q.token)
  }

  ghost predicate SleeperOk(s: State, r: nat) {
    At(s, r, Waiting) && s.sh.isActive && s.reqs[r].ticket.Some? && s.sh.pendingTicket == s.reqs[r].ticket
  }

  ghost predicate Inv(s: State) {
    && SharedOk(s)
    && (forall r | 0 <= r < |s.reqs| :: RequestOk(s, r, s.reqs[r]))
    && (forall r | r in s.asleep :: SleeperOk(s, r))
  }

  /** The request is at a test of the wait loop. */
  predicate InRegion(s: State, r: nat) {
    r < |s.reqs| && r !in s.asleep && s.reqs[r].ticket.Some? && (s.reqs[r].phase.Waiting? || s.reqs[r].phase.Cleared?)
  }

  lemma ActivationKeeps(s: State, r: nat)
    requires Inv(s) && InRegion(s, r) && TryActivate(s.sh, s.reqs[r].ticket.value).1 == Activate
    ensures Inv(Attempt(s, r))
  {
    assert RequestOk(s, r, s.reqs[r]);
    AppendIncreasing(s.activations, s.reqs[r].ticket.value);
    hide Increasing;
  }

  lemma OtherVerdictKeeps(s: State, r: nat)
    requires Inv(s) && InRegion(s, r) && TryActivate(s.sh, s.reqs[r].ticket.value).1 != Activate
    ensures Inv(Attempt(s, r))
  {
    hide Increasing;
    assert RequestOk(s, r, s.reqs[r]);
  }

  lemma AttemptKeeps(s: State, r: nat)
    requires Inv(s) && InRegion(s, r)
    ensures Inv(Attempt(s, r))
  {
    hide Inv, Attempt;
    if TryActivate(s.sh, s.reqs[r].ticket.value).1 == Activate {
      ActivationKeeps(s, r);
    } else {
      OtherVerdictKeeps(s, r);
    }
  }

  lemma DrawKeeps(s: State, r: nat)
    requires Inv(s) && At(s, r, Cleared)
    ensures Inv(Draw(s, r))
  {
    hide Increasing;
  }

  lemma MarkKeeps(s: State)
    requires Inv(s)
    ensures Inv(Mark(s)) && |Mark(s).reqs| == |s.reqs|
    ensures forall r | 0 <= r < |s.reqs| :: Mark(s).reqs[r].phase == s.reqs[r].phase
  {
  }

  lemma OwnCancelKeeps(s: State, r: nat, phase: Phase)
    requires Inv(s) && r < |s.reqs| && (s.reqs[r].phase.Started? || s.reqs[r].phase.Signalled?)
    requires phase.Signalled? || phase.Cleared?
    ensures Inv(Move(s, r, phase))
  {
  }

  lemma ClearKeeps(s: State)
    requires Inv(s)
    ensures Inv(s.(sh := s.sh.(pendingTicket := None), asleep := {}))
  {
  }

  lemma CancelKeeps(s: State, a: Action)
    requires Inv(s) && Enabled(s, a) && (a.Signal? || a.Clear?)
    ensures Inv(Apply(s, a))
  {
    MarkKeeps(s);
    ClearKeeps(s);
    hide Inv, Mark, Move;
    if a.Signal? && a.caller.Some? {
      OwnCancelKeeps(Mark(s), a.caller.value, Signalled);
    }
    if a.Clear? && a.caller.Some? {
      OwnCancelKeeps(s.(sh := s.sh.(pendingTicket := None), asleep := {}), a.caller.value, Cleared);
    }
  }

  lemma InstallKeeps(s: State, r: nat)
    requires Inv(s) && Enabled(s, Install(r))
    ensures Inv(Apply(s, Install(r)))
  {
    hide Increasing;
  }

  lemma UninstallKeeps(s: State, r: nat)
    requires Inv(s) && Enabled(s, Uninstall(r))
    ensures Inv(Apply(s, Uninstall(r)))
  {
    hide Increasing;
  }

  lemma ReleaseKeeps(s: State, r: nat)
    requires Inv(s) && Enabled(s, Release(r))
    ensures Inv(Apply(s, Release(r)))
  {
    hide Increasing;
  }

  lemma RunningKeeps(s: State, a: Action)
    requires Inv(s) && Enabled(s, a) && (a.NewRequest? || a.WakeSpuriously? || a.TestToken? || a.ChildEnds?)
    ensures Inv(Apply(s, a))
  {
    hide Increasing;
  }

  lemma StepKeepsInv(s: State, a: Action)
    requires Inv(s) && Enabled(s, a)
    ensures Inv(Apply(s, a))
  {
    hide Attempt, Inv;
    match a {
      case Enter(r) => DrawKeeps(s, r); AttemptKeeps(Draw(s, r), r);
      case Recheck(r) => AttemptKeeps(s, r);
      case Signal(_) | Clear(_) => CancelKeeps(s, a);
      case Install(r) => InstallKeeps(s, r);
      case Uninstall(r) => UninstallKeeps(s, r);
      case Release(r) => ReleaseKeeps(s, r);
      case _ => RunningKeeps(s, a);
    }
  }

  // ------------------------------------------------------------ runs

  /** A run: any interleaving of any number of requests and cancellations. */
  ghost predicate IsRun(run: seq<State>, acts: seq<Action>) {
    && |run| == |acts| + 1
    && run[0] == INITIAL
    && forall i | 0 <= i < |acts| :: Enabled(run[i], acts[i]) && run[i + 1] == Apply(run[i], acts[i])
  }

  lemma {:induction false} RunKeepsInv(run: seq<State>, acts: seq<Action>, i: nat)
    requires IsRun(run, acts) && i < |run|
    ensures Inv(run[i])
  {
    if i > 0 {
      RunKeepsInv(run, acts, i - 1);
      StepKeepsInv(run[i - 1], acts[i - 1]);
    }
  }

  /**
   One owner of the slot; an installed token is its token; a sleeper holds the newest ticket and waits
   for an owner.
  */
  lemma SlotIsExclusive(run: seq<State>, acts: seq<Action>, i: nat, r: nat, q: nat)
    requires IsRun(run, acts) && i < |run| && r < |run[i].reqs| && q < |run[i].reqs|
    ensures
      var s := run[i];
      && (OwnsSlot(s.reqs[r].phase) && OwnsSlot(s.reqs[q].phase) ==> r == q)
      && (s.sh.activeCancel == Some(r) ==> OwnsSlot(s.reqs[r].phase))
      && (r in s.asleep ==>
            && s.sh.isActive && s.asleep == {r}
            && s.reqs[r].ticket == s.sh.pendingTicket == Some(s.sh.nextTicket - 1))
  {
    var s := run[i];
    RunKeepsInv(run, acts, i);
    assert RequestOk(s, r, s.reqs[r]) && RequestOk(s, q, s.reqs[q]);
    if r in s.asleep {
      assert SleeperOk(s, r);
      forall p | p in s.asleep
        ensures p == r
      {
        assert SleeperOk(s, p) && RequestOk(s, p, s.reqs[p]);
      }
    }
  }

  lemma StepActivatesNewest(s: State, a: Action)
    requires Inv(s) && Enabled(s, a)
    ensures
      var t, after := s.activations, Apply(s, a).activations;
      && s.sh.nextTicket <= Apply(s, a).sh.nextTicket
      && (after == t || (|after| == |t| + 1 && t == after[..|t|] && after[|t|] + 1 == Apply(s, a).sh.nextTicket))
  {
  }

  /** The tickets recorded are those of the requests that take the slot, when they take it. */
  lemma TakingIsRecorded(s: State, a: Action, r: nat)
    requires Enabled(s, a) && r < |s.reqs| && !OwnsSlot(s.reqs[r].phase) && OwnsSlot(Apply(s, a).reqs[r].phase)
    ensures Apply(s, a).reqs[r].ticket.Some?
    ensures Apply(s, a).activations == s.activations + [Apply(s, a).reqs[r].ticket.value]
  {
  }

  /** Activations increase, and once a newer ticket is drawn an older one that has not run never will. */
  lemma {:induction false} NewestWins(run: seq<State>, acts: seq<Action>, i: nat, j: nat, t: nat)
    requires IsRun(run, acts) && i <= j < |run|
    ensures Increasing(run[j].activations) && run[i].sh.nextTicket <= run[j].sh.nextTicket
    ensures t + 1 < run[i].sh.nextTicket && t !in run[i].activations ==> t !in run[j].activations
    decreases j
  {
    hide RequestOk, SleeperOk, Apply, Enabled, Increasing;
    RunKeepsInv(run, acts, j);
    if i < j {
      NewestWins(run, acts, i, j - 1, t);
      RunKeepsInv(run, acts, j - 1);
      StepActivatesNewest(run[j - 1], acts[j - 1]);
    }
  }

  // ------------------------------------------------------------ progress

  /** The next step a request takes when nothing stops it. */
  function NextOf(s: State, r: nat): Action
    requires r < |s.reqs| && s.reqs[r].phase != Done
  {
    match s.reqs[r].phase
    case Started => Signal(Some(r))
    case Signalled => Clear(Some(r))
    case Cleared => Enter(r)
    case Waiting => Recheck(r)
    case Activated => Install(r)
    case Armed => TestToken(r)
    case Spawned => ChildEnds(r, false)
    case Returned => Uninstall(r)
    case _ => Release(r)
  }

  /** No request is ever stuck: it can step, or it sleeps alone behind a slot owner that can. */
  lemma NeverStuck(run: seq<State>, acts: seq<Action>, i: nat, r: nat)
    requires IsRun(run, acts) && i < |run| && r < |run[i].reqs| && run[i].reqs[r].phase != Done
    ensures r !in run[i].asleep ==> Enabled(run[i], NextOf(run[i], r))
    ensures r in run[i].asleep ==>
              && run[i].sh.isActive && run[i].sh.pendingTicket == run[i].reqs[r].ticket
              && run[i].asleep == {r}
              && exists h :: && 0 <= h < |run[i].reqs| && OwnsSlot(run[i].reqs[h].phase)
                             && Enabled(run[i], NextOf(run[i], h))
  {
    var s := run[i];
    RunKeepsInv(run, acts, i);
    assert RequestOk(s, r, s.reqs[r]);
    if r in s.asleep {
      SlotIsExclusive(run, acts, i, r, r);
      assert SleeperOk(s, r);
      var h := s.holder.value;
      assert RequestOk(s, h, s.reqs[h]);
      assert OwnsSlot(s.reqs[h].phase) && Enabled(s, NextOf(s, h));
    }
  }

  // ------------------------------------------------------------ which cancellations stop a request

  /** A mark that comes before the child starts keeps it from starting. */
  lemma {:induction false} MarkedNeverSpawns(run: seq<State>, acts: seq<Action>, i: nat, j: nat, r: nat)
    requires IsRun(run, acts) && i <= j < |run| && At(run[i], r, Armed) && run[i].reqs[r].token
    ensures r < |run[j].reqs| && run[j].reqs[r].token && run[j].reqs[r].phase != Spawned
    ensures At(run[j], r, Armed) || At(run[j], r, Returned) || At(run[j], r, Uninstalled) || At(run[j], r, Done)
    decreases j
  {
    hide Apply, Enabled;
    if i < j {
      MarkedNeverSpawns(run, acts, i, j - 1, r);
      StepKeepsMark(run[j - 1], acts[j - 1], r);
    }
  }

  lemma StepKeepsMark(s: State, a: Action, r: nat)
    requires Enabled(s, a) && r < |s.reqs| && s.reqs[r].token
    requires s.reqs[r].phase in {Armed, Returned, Uninstalled, Done}
    ensures r < |Apply(s, a).reqs|
    ensures Apply(s, a).reqs[r].token && Apply(s, a).reqs[r].phase in {Armed, Returned, Uninstalled, Done}
  {
    if Requester(a) != Some(r) {
      OthersStay(s, a, r);
      hide Apply, Enabled;
    }
  }

  /** A request that has drawn its ticket keeps it, and waits, owns the slot or is over. */
  predicate HasDrawn(q: Request) {
    q.ticket.Some? && (q.phase.Waiting? || OwnsSlot(q.phase) || q.phase.Done?)
  }

  /** The request whose step it is. */
  function Requester(a: Action): Option<nat> {
    match a
    case Signal(caller) => caller
    case Clear(caller) => caller
    case Enter(r) => Some(r)
    case Recheck(r) => Some(r)
    case Install(r) => Some(r)
    case TestToken(r) => Some(r)
    case ChildEnds(r, _) => Some(r)
    case Uninstall(r) => Some(r)
    case Release(r) => Some(r)
    case _ => None
  }

  /** A step changes nothing of another request but its token, which it can only set. */
  lemma OthersStay(s: State, a: Action, r: nat)
    requires Enabled(s, a) && r < |s.reqs| && Requester(a) != Some(r)
    ensures r < |Apply(s, a).reqs| && (s.reqs[r].token ==> Apply(s, a).reqs[r].token)
    ensures Apply(s, a).reqs[r] == s.reqs[r].(token := Apply(s, a).reqs[r].token)
  {
  }

  lemma OwnStepStaysDrawn(s: State, a: Action, r: nat)
    requires Enabled(s, a) && r < |s.reqs| && HasDrawn(s.reqs[r]) && Requester(a) == Some(r)
    ensures r < |Apply(s, a).reqs| && HasDrawn(Apply(s, a).reqs[r]) && Apply(s, a).reqs[r].ticket == s.reqs[r].ticket
  {
  }

  lemma ActivationsGrow(s: State, a: Action)
    requires Enabled(s, a)
    ensures s.activations <= Apply(s, a).activations
  {
  }

  lemma DrawnStep(s: State, a: Action, r: nat)
    requires Enabled(s, a) && r < |s.reqs| && HasDrawn(s.reqs[r])
    ensures r < |Apply(s, a).reqs| && HasDrawn(Apply(s, a).reqs[r]) && Apply(s, a).reqs[r].ticket == s.reqs[r].ticket
    ensures s.activations <= Apply(s, a).activations
  {
    ActivationsGrow(s, a);
    hide Apply, Enabled;
    if Requester(a) == Some(r) {
      OwnStepStaysDrawn(s, a, r);
    } else {
      OthersStay(s, a, r);
    }
  }

  lemma {:induction false} DrawnStays(run: seq<State>, acts: seq<Action>, i: nat, j: nat, r: nat)
    requires IsRun(run, acts) && i <= j < |run| && r < |run[i].reqs| && HasDrawn(run[i].reqs[r])
    ensures r < |run[j].reqs| && HasDrawn(run[j].reqs[r]) && run[j].reqs[r].ticket == run[i].reqs[r].ticket
    ensures run[i].activations <= run[j].activations
    decreases j
  {
    hide HasDrawn, Apply, Enabled;
    if i < j {
      DrawnStays(run, acts, i, j - 1, r);
      DrawnStep(run[j - 1], acts[j - 1], r);
    }
  }

  /** A request that a clearing caught waiting: it is over, or waits for a ticket that is not pending any more. */
  predicate Barred(s: State, r: nat) {
    && r < |s.reqs| && s.reqs[r].ticket.Some?
    && (s.reqs[r].phase.Done? || (s.reqs[r].phase.Waiting? && s.sh.pendingTicket != s.reqs[r].ticket))
  }

  lemma OwnStepStaysBarred(s: State, a: Action, r: nat)
    requires Enabled(s, a) && Barred(s, r) && Requester(a) == Some(r)
    ensures Barred(Apply(s, a), r)
  {
  }

  /** What is pending after a step was pending before, or is a ticket just drawn. */
  lemma PendingIsNew(s: State, a: Action)
    requires Enabled(s, a)
    ensures Apply(s, a).sh.pendingTicket in {None, s.sh.pendingTicket, Some(s.sh.nextTicket)}
  {
  }

  lemma TicketIsDrawn(s: State, r: nat)
    requires Inv(s) && r < |s.reqs| && s.reqs[r].ticket.Some?
    ensures s.reqs[r].ticket.value < s.sh.nextTicket
  {
    assert RequestOk(s, r, s.reqs[r]);
  }

  lemma BarredStep(s: State, a: Action, r: nat)
    requires Inv(s) && Enabled(s, a) && Barred(s, r)
    ensures Barred(Apply(s, a), r)
  {
    TicketIsDrawn(s, r);
    PendingIsNew(s, a);
    hide Apply, Enabled, Inv;
    if Requester(a) == Some(r) {
      OwnStepStaysBarred(s, a, r);
    } else {
      OthersStay(s, a, r);
    }
  }

  lemma {:induction false} BarredStays(run: seq<State>, acts: seq<Action>, i: nat, j: nat, r: nat)
    requires IsRun(run, acts) && i <= j < |run| && Barred(run[i], r)
    ensures Barred(run[j], r)
    decreases j
  {
    hide Barred, Apply, Enabled, Inv;
    if i < j {
      BarredStays(run, acts, i, j - 1, r);
      RunKeepsInv(run, acts, j - 1);
      BarredStep(run[j - 1], acts[j - 1], r);
    }
  }

  /**
   One whole cancellation, its regions at steps `i` and `k`, and a request that is in `phase` with its
   ticket drawn when the first region runs; `activated` tells whether the ticket has activated when
   the second one does.
   */
  ghost predicate CancelledIn(
      run: seq<State>, acts: seq<Action>, i: nat, k: nat, x: Option<nat>, r: nat, phase: Phase, activated: bool)
  {
    && IsRun(run, acts) && i < k < |acts| && acts[i] == Signal(x) && acts[k] == Clear(x)
    && At(run[i], r, phase) && run[i].reqs[r].ticket.Some?
    && (activated <==> run[i].reqs[r].ticket.value in run[k].activations)
  }

  /** The request's child does not start after step `i`. */
  ghost predicate NeverStarts(run: seq<State>, i: nat, r: nat) {
    forall j | i < j < |run| :: !At(run[j], r, Spawned)
  }

  /** The situations a request can be in between drawing its ticket and starting its child. */
  predicate NotStarted(phase: Phase, activated: bool) {
    match phase
    case Waiting => true
    case Activated | Armed => activated
    case Done => !activated
    case _ => false
  }

  /** An installed token is marked in the first region. */
  lemma ArmedIsStopped(run: seq<State>, acts: seq<Action>, i: nat, r: nat)
    requires IsRun(run, acts) && i < |acts| && acts[i].Signal? && At(run[i], r, Armed)
    ensures NeverStarts(run, i, r)
  {
    RunKeepsInv(run, acts, i);
    assert RequestOk(run[i], r, run[i].reqs[r]);
    assert At(run[i + 1], r, Armed) && run[i + 1].reqs[r].token;
    hide Inv, Apply, Enabled, RequestOk;
    forall j | i < j < |run|
      ensures !At(run[j], r, Spawned)
    {
      MarkedNeverSpawns(run, acts, i + 1, j, r);
    }
  }

  lemma SpawnedHasActivated(run: seq<State>, acts: seq<Action>, j: nat, r: nat)
    requires IsRun(run, acts) && j < |run| && At(run[j], r, Spawned)
    ensures run[j].reqs[r].ticket.Some? && run[j].reqs[r].ticket.value in run[j].activations
  {
    RunKeepsInv(run, acts, j);
    assert RequestOk(run[j], r, run[j].reqs[r]);
  }

  /** A ticket that has not activated when the second region runs never activates. */
  lemma UnactivatedIsBarred(run: seq<State>, acts: seq<Action>, k: nat, r: nat)
    requires IsRun(run, acts) && k < |acts| && acts[k].Clear?
    requires r < |run[k].reqs| && HasDrawn(run[k].reqs[r]) && run[k].reqs[r].ticket.value !in run[k].activations
    ensures Barred(run[k + 1], r)
  {
    RunKeepsInv(run, acts, k);
    assert RequestOk(run[k], r, run[k].reqs[r]);
  }

  lemma UnactivatedIsStopped(run: seq<State>, acts: seq<Action>, i: nat, k: nat, r: nat)
    requires IsRun(run, acts) && i < k < |acts| && acts[k].Clear?
    requires r < |run[i].reqs| && HasDrawn(run[i].reqs[r]) && run[i].reqs[r].ticket.value !in run[k].activations
    ensures NeverStarts(run, i, r)
  {
    hide Apply, Enabled, HasDrawn;
    DrawnStays(run, acts, i, k, r);
    assert run[k].reqs[r].ticket.Some? by {
      TicketOfDrawn(run[k].reqs[r]);
    }
    UnactivatedIsBarred(run, acts, k, r);
    forall j | i < j < |run|
      ensures !At(run[j], r, Spawned)
    {
      if j <= k {
        DrawnStays(run, acts, i, j, r);
        DrawnStays(run, acts, j, k, r);
        if At(run[j], r, Spawned) {
          SpawnedHasActivated(run, acts, j, r);
        }
      } else {
        BarredStays(run, acts, k + 1, j, r);
      }
    }
  }

  lemma TicketOfDrawn(q: Request)
    requires HasDrawn(q)
    ensures q.ticket.Some?
  {
  }

  lemma Step(run: seq<State>, acts: seq<Action>, a: Action) returns (longer: seq<State>, longerActs: seq<Action>)
    requires IsRun(run, acts) && Enabled(run[|acts|], a)
    ensures IsRun(longer, longerActs) && run <= longer && acts <= longerActs
    ensures |longerActs| == |acts| + 1 && longerActs[|acts|] == a
    ensures longer[|longerActs|] == Apply(run[|acts|], a)
  {
    longer, longerActs := run + [Apply(run[|acts|], a)], acts + [a];
    hide Apply, Enabled;
  }

  /** One request, alone, takes the slot. */
  lemma LoneActivation() returns (run: seq<State>, acts: seq<Action>)
    ensures IsRun(run, acts)
    ensures run[|acts|] ==
      State(Shared(None, true, None, 1), [Request(Activated, Some(0), false, NoneYet)], {}, [0], [0], Some(0))
  {
    run, acts := Step([INITIAL], [], NewRequest);
    run, acts := Step(run, acts, Signal(Some(0)));
    run, acts := Step(run, acts, Clear(Some(0)));
    run, acts := Step(run, acts, Enter(0));
  }

  lemma UnarmedSteps(s: State, x: Option<nat>, r: nat)
    requires At(s, r, Activated) && !s.reqs[r].token && Enabled(s, Clear(x))
    ensures Enabled(Apply(s, Clear(x)), Install(r))
    ensures Enabled(Apply(Apply(s, Clear(x)), Install(r)), TestToken(r))
    ensures
      var end := Apply(Apply(Apply(s, Clear(x)), Install(r)), TestToken(r));
      At(end, r, Spawned) && !end.reqs[r].token
  {
    var s1 := Apply(s, Clear(x));
    assert At(s1, r, Activated) && !s1.reqs[r].token;
    var s2 := Apply(s1, Install(r));
    assert At(s2, r, Armed) && !s2.reqs[r].token;
  }

  lemma UnarmedIsUnmarked(run: seq<State>, acts: seq<Action>, r: nat)
    requires IsRun(run, acts) && At(run[|acts|], r, Activated)
    ensures !run[|acts|].reqs[r].token
  {
    RunKeepsInv(run, acts, |acts|);
    assert RequestOk(run[|acts|], r, run[|acts|].reqs[r]);
  }

  /**
   Whoever has activated without a token when a cancellation is between its regions can start its child
   all the same.
  */
  lemma UnarmedCanStart(run: seq<State>, acts: seq<Action>, x: Option<nat>, r: nat)
      returns (longer: seq<State>, longerActs: seq<Action>)
    requires IsRun(run, acts) && At(run[|acts|], r, Activated) && Enabled(run[|acts|], Clear(x))
    ensures IsRun(longer, longerActs) && run <= longer && longerActs == acts + [Clear(x), Install(r), TestToken(r)]
    ensures At(longer[|longerActs|], r, Spawned) && !longer[|longerActs|].reqs[r].token
  {
    UnarmedIsUnmarked(run, acts, r);
    UnarmedSteps(run[|acts|], x, r);
    hide Apply, Enabled, At;
    longer, longerActs := Step(run, acts, Clear(x));
    longer, longerActs := Step(longer, longerActs, Install(r));
    longer, longerActs := Step(longer, longerActs, TestToken(r));
  }

  /** A whole cancellation between the activation and the installation of its victim's token. */
  lemma CancellationCanBeLost() returns (run: seq<State>, acts: seq<Action>, i: nat)
    ensures CancelledIn(run, acts, i, i + 1, None, 0, Activated, true) && !NeverStarts(run, i, 0)
  {
    run, acts := LoneActivation();
    i := |acts|;
    run, acts := Step(run, acts, Signal(None));
    run, acts := UnarmedCanStart(run, acts, None, 0);
  }

  /** One request's child runs and a second request sleeps behind it. */
  lemma SecondWaits() returns (run: seq<State>, acts: seq<Action>)
    ensures IsRun(run, acts)
    ensures run[|acts|] == State(Shared(Some(0), true, Some(1), 2),
      [Request(Spawned, Some(0), true, NoneYet), Request(Waiting, Some(1), false, NoneYet)],
      {1}, [0], [0, 1], Some(0))
  {
    run, acts := LoneActivation();
    run, acts := Step(run, acts, Install(0));
    run, acts := Step(run, acts, TestToken(0));
    run, acts := Step(run, acts, NewRequest);
    run, acts := Step(run, acts, Signal(Some(1)));
    run, acts := Step(run, acts, Clear(Some(1)));
    run, acts := Step(run, acts, Enter(1));
  }

  /**
   A whole cancellation that marks the running request, and whose second region comes after the next
   one's activation.
  */
  lemma WaiterCanEscape() returns (run: seq<State>, acts: seq<Action>, i: nat, k: nat)
    ensures CancelledIn(run, acts, i, k, None, 1, Waiting, true) && !NeverStarts(run, i, 1)
  {
    run, acts := SecondWaits();
    i := |acts|;
    run, acts := Step(run, acts, Signal(None));
    run, acts := Step(run, acts, ChildEnds(0, false));
    run, acts := Step(run, acts, Uninstall(0));
    run, acts := Step(run, acts, Release(0));
    run, acts := Step(run, acts, Recheck(1));
    k := |acts|;
    run, acts := UnarmedCanStart(run, acts, None, 1);
  }

  /**
   A cancellation surely stops a request whose child has not started if and only if it finds the
   token installed in its first region, or the ticket not activated in its second.
   */
  lemma CancellationStopsExactly(phase: Phase, activated: bool)
    requires NotStarted(phase, activated)
    ensures (forall run, acts, i, k, x, r | CancelledIn(run, acts, i, k, x, r, phase, activated) ::
      NeverStarts(run, i, r))
      <==> phase == Armed || !activated
  {
    if phase == Armed || !activated {
      forall run: seq<State>, acts: seq<Action>, i: nat, k: nat, x: Option<nat>, r: nat
        | CancelledIn(run, acts, i, k, x, r, phase, activated)
        ensures NeverStarts(run, i, r)
      {
        if phase == Armed {
          ArmedIsStopped(run, acts, i, r);
        } else {
          UnactivatedIsStopped(run, acts, i, k, r);
        }
      }
    } else if phase == Activated {
      var run, acts, i := CancellationCanBeLost();
    } else {
      var run, acts, i, k := WaiterCanEscape();
    }
  }

  // ------------------------------------------------------------ what a call returns

  /** The inner call is over. */
  predicate IsOver(p: Phase) {
    p.Returned? || p.Uninstalled? || p.Done?
  }

  /** This step of request `r` makes it return this. */
  predicate Decides(s: State, a: Action, r: nat, outcome: Outcome) {
    && r < |s.reqs|
    && match outcome
       case NoneYet => false
       case Cancelled => CancelledBy(s, a, r)
       case OtherResult => a == ChildEnds(r, false)
  }

  predicate CancelledBy(s: State, a: Action, r: nat)
    requires r < |s.reqs|
  {
    match a
    case Recheck(q) => q == r && s.sh.pendingTicket != s.reqs[r].ticket
    case TestToken(q) => q == r && s.reqs[r].token
    case ChildEnds(q, cancelled) => q == r && cancelled
    case _ => false
  }

  predicate OutcomeOk(q: Request) {
    q.outcome == NoneYet <==> !IsOver(q.phase)
  }

  lemma OwnOutcome(s: State, a: Action, r: nat, outcome: Outcome)
    requires Enabled(s, a) && r < |s.reqs| && OutcomeOk(s.reqs[r]) && Requester(a) == Some(r)
    ensures r < |Apply(s, a).reqs| && OutcomeOk(Apply(s, a).reqs[r])
    ensures outcome != NoneYet ==>
      (Apply(s, a).reqs[r].outcome == outcome <==> s.reqs[r].outcome == outcome || Decides(s, a, r, outcome))
  {
    if a.Enter? {
      EnterDecidesNothing(s, r);
      hide Apply;
    } else {
      hide Draw;
    }
  }

  lemma EnterDecidesNothing(s: State, r: nat)
    requires Enabled(s, Enter(r)) && OutcomeOk(s.reqs[r])
    ensures r < |Apply(s, Enter(r)).reqs|
    ensures OutcomeOk(Apply(s, Enter(r)).reqs[r]) && Apply(s, Enter(r)).reqs[r].outcome == NoneYet
  {
  }

  lemma OnlyOwnStepsDecide(s: State, a: Action, r: nat, outcome: Outcome)
    requires Decides(s, a, r, outcome)
    ensures r < |s.reqs| && Requester(a) == Some(r)
  {
  }

  lemma OutcomeStep(s: State, a: Action, r: nat, outcome: Outcome)
    requires Enabled(s, a) && r < |s.reqs| && OutcomeOk(s.reqs[r])
    ensures r < |Apply(s, a).reqs| && OutcomeOk(Apply(s, a).reqs[r])
    ensures outcome != NoneYet ==>
      (Apply(s, a).reqs[r].outcome == outcome <==> s.reqs[r].outcome == outcome || Decides(s, a, r, outcome))
  {
    hide Apply, Enabled, Decides, Requester;
    if Requester(a) == Some(r) {
      OwnOutcome(s, a, r, outcome);
    } else {
      OthersStay(s, a, r);
      if Decides(s, a, r, outcome) {
        OnlyOwnStepsDecide(s, a, r, outcome);
      }
    }
  }

  lemma Newcomer(s: State, a: Action, r: nat)
    requires Enabled(s, a) && |s.reqs| <= r < |Apply(s, a).reqs|
    ensures OutcomeOk(Apply(s, a).reqs[r]) && Apply(s, a).reqs[r].outcome == NoneYet
  {
  }

  lemma NoneLeaves(s: State, a: Action)
    requires Enabled(s, a)
    ensures |s.reqs| <= |Apply(s, a).reqs|
  {
  }

  ghost predicate Decided(run: seq<State>, acts: seq<Action>, j: nat, r: nat, outcome: Outcome)
    requires IsRun(run, acts) && j < |run|
  {
    exists k :: 0 <= k < j && Decides(run[k], acts[k], r, outcome)
  }

  lemma {:induction false} UndecidedBefore(run: seq<State>, acts: seq<Action>, j: nat, r: nat, outcome: Outcome)
    requires IsRun(run, acts) && j < |run| && |run[j].reqs| <= r
    ensures !Decided(run, acts, j, r, outcome)
    decreases j
  {
    hide Apply, Enabled;
    if j > 0 {
      NoneLeaves(run[j - 1], acts[j - 1]);
      UndecidedBefore(run, acts, j - 1, r, outcome);
    }
  }

  /** A call's result is its child's own or a cancellation exactly when one of its steps made it so. */
  lemma {:induction false} OutcomeIsExact(run: seq<State>, acts: seq<Action>, j: nat, r: nat, outcome: Outcome)
    requires IsRun(run, acts) && j < |run| && r < |run[j].reqs|
    ensures OutcomeOk(run[j].reqs[r])
    ensures outcome != NoneYet ==> (run[j].reqs[r].outcome == outcome <==> Decided(run, acts, j, r, outcome))
    decreases j
  {
    hide Apply, Enabled, CancelledBy, Requester, OutcomeOk;
    if j > 0 {
      var s, a := run[j - 1], acts[j - 1];
      assert run[j] == Apply(s, a);
      if r >= |s.reqs| {
        Newcomer(s, a, r);
        UndecidedBefore(run, acts, j - 1, r, outcome);
      } else {
        OutcomeIsExact(run, acts, j - 1, r, outcome);
        OutcomeStep(s, a, r, outcome);
      }
      assert Decided(run, acts, j, r, outcome) <==>
        Decided(run, acts, j - 1, r, outcome) || Decides(s, a, r, outcome);
    }
  }

  /** A newer ticket, a cleared pending ticket, or a store through the own token. */
  predicate Disturbs(s: State, a: Action, r: nat) {
    && r < |s.reqs|
    && match a
       case Enter(q) => q != r && s.reqs[r].ticket.Some?
       case Clear(_) => s.reqs[r].ticket.Some?
       case Signal(_) => s.sh.activeCancel == Some(r)
       case _ => false
  }

  predicate Undisturbed(s: State, r: nat) {
    r < |s.reqs| ==>
      && !s.reqs[r].token && s.reqs[r].outcome != Cancelled
      && (s.reqs[r].phase.Waiting? ==> s.sh.pendingTicket == s.reqs[r].ticket)
  }

  lemma OwnStepStaysUndisturbed(s: State, a: Action, r: nat)
    requires Enabled(s, a) && r < |s.reqs| && Undisturbed(s, r) && !Disturbs(s, a, r) && Requester(a) == Some(r)
    ensures Undisturbed(Apply(s, a), r)
  {
  }

  lemma OtherStepStaysUndisturbed(s: State, a: Action, r: nat)
    requires Inv(s) && Enabled(s, a) && r < |s.reqs| && Undisturbed(s, r) && !Disturbs(s, a, r)
    requires Requester(a) != Some(r)
    ensures Undisturbed(Apply(s, a), r)
  {
    assert RequestOk(s, r, s.reqs[r]);
    if Requester(a).Some? {
      var q := Requester(a).value;
      assert RequestOk(s, q, s.reqs[q]);
    }
    hide Inv;
  }

  lemma NewcomerIsUndisturbed(s: State, a: Action, r: nat)
    requires Enabled(s, a) && |s.reqs| <= r
    ensures Undisturbed(Apply(s, a), r)
  {
  }

  lemma StepStaysUndisturbed(s: State, a: Action, r: nat)
    requires Inv(s) && Enabled(s, a) && Undisturbed(s, r) && !Disturbs(s, a, r)
    ensures Undisturbed(Apply(s, a), r)
  {
    hide *;
    if r >= |s.reqs| {
      NewcomerIsUndisturbed(s, a, r);
    } else if Requester(a) == Some(r) {
      OwnStepStaysUndisturbed(s, a, r);
    } else {
      OtherStepStaysUndisturbed(s, a, r);
    }
  }

  /** No request is cancelled spuriously. */
  lemma {:induction false} CancelledHasCause(run: seq<State>, acts: seq<Action>, j: nat, r: nat)
    requires IsRun(run, acts) && j < |run|
    ensures Undisturbed(run[j], r) || exists k :: 0 <= k < j && Disturbs(run[k], acts[k], r)
    ensures r < |run[j].reqs| && run[j].reqs[r].outcome == Cancelled ==>
      exists k :: 0 <= k < j && Disturbs(run[k], acts[k], r)
    decreases j
  {
    hide Inv, Apply, Enabled, Disturbs;
    if j > 0 {
      CancelledHasCause(run, acts, j - 1, r);
      RunKeepsInv(run, acts, j - 1);
      if Undisturbed(run[j - 1], r) && !Disturbs(run[j - 1], acts[j - 1], r) {
        StepStaysUndisturbed(run[j - 1], acts[j - 1], r);
      }
    }
  }

  /** The child runs, or the call is over: with the child's own result, or as cancelled through its token. */
  predicate Ran(q: Request) {
    q.phase.Spawned? || (IsOver(q.phase) && (q.outcome == OtherResult || (q.outcome == Cancelled && q.token)))
  }

  lemma OwnStepStaysRan(s: State, a: Action, r: nat)
    requires Enabled(s, a) && r < |s.reqs| && Ran(s.reqs[r]) && Requester(a) == Some(r)
    ensures r < |Apply(s, a).reqs| && Ran(Apply(s, a).reqs[r])
  {
  }

  /** A request whose child started has the child's own result in the end unless its token is set. */
  lemma {:induction false} UnmarkedIsAnswered(run: seq<State>, acts: seq<Action>, k: nat, j: nat, r: nat)
    requires IsRun(run, acts) && k <= j < |run| && At(run[k], r, Spawned)
    ensures r < |run[j].reqs| && Ran(run[j].reqs[r])
    decreases j
  {
    hide Apply, Enabled, IsOver;
    if k < j {
      UnmarkedIsAnswered(run, acts, k, j - 1, r);
      if Requester(acts[j - 1]) == Some(r) {
        OwnStepStaysRan(run[j - 1], acts[j - 1], r);
      } else {
        OthersStay(run[j - 1], acts[j - 1], r);
      }
    }
  }
}
