/** Current, retired and completed requests. */
module Coordinator {
  /*
   Which request identifiers are current, retired or completed. The coordinator remembers the last 64
   of each kind in a queue and a set; it behaves like one that keeps whole histories and looks at
   their last 64 entries.
  */

  import opened Options
  import opened Sorting

  const HISTORY_BOUND: nat := 64

  datatype Incoming = Current | Retired | Completed | Unknown

  datatype Call = Begin(id: nat) | Abandon(id: nat) | Complete(id: nat) | RetireTimeout(id: nat) | Classify(id: nat)

  datatype Answer = Accepted | Refused | Is(incoming: Incoming)

  // ------------------------------------------------------------ with bounded queues

  datatype Bounded = Bounded(order: seq<nat>, members: set<nat>)

  datatype State = State(active: Option<nat>, completed: Bounded, retired: Bounded)

  const START: State := State(None, Bounded([], {}), Bounded([], {}))

  /** Drops the oldest until few enough are left. */
  function Trimmed(b: Bounded): Bounded
    decreases |b.order|
  {
    if |b.order| > HISTORY_BOUND then Trimmed(Bounded(b.order[1..], b.members - {b.order[0]})) else b
  }

  function Inserted(b: Bounded, id: nat): Bounded {
    Trimmed(Bounded(b.order + [id], b.members + {id}))
  }

  function Next(s: State, call: Call): (State, Answer) {
    match call
    case Begin(id) =>
      if id == 0 || s.active.Some? || id in s.completed.members || id in s.retired.members then (s, Refused)
      else (s.(active := Some(id)), Accepted)
    case Abandon(id) => (if s.active == Some(id) then s.(active := None) else s, Accepted)
    case Complete(id) =>
      if s.active != Some(id) then (s, Refused)
      else (s.(active := None, completed := Inserted(s.completed, id)), Accepted)
    case RetireTimeout(id) =>
      if s.active != Some(id) then (s, Refused)
      else (s.(active := None, retired := Inserted(s.retired, id)), Accepted)
    case Classify(id) =>
      (s, Is(if s.active == Some(id) then Current
             else if id in s.retired.members then Retired
             else if id in s.completed.members then Completed
             else Unknown))
  }

  class RequestCoordinator {
    var active: Option<nat>
    var completedOrder: seq<nat>
    var completed: set<nat>
    var retiredOrder: seq<nat>
    var retired: set<nat>

    function Value(): State
      reads this
    {
      State(active, Bounded(completedOrder, completed), Bounded(retiredOrder, retired))
    }

    constructor ()
      ensures Value() == START
    {
      active, completedOrder, completed, retiredOrder, retired := None, [], {}, [], {};
    }

    method Begin(id: nat) returns (ok: bool)
      modifies this`active
      ensures (Value(), if ok then Accepted else Refused) == Next(old(Value()), Call.Begin(id))
    {
      if id == 0 || active.Some? || id in completed || id in retired {
        return false;
      }
      active := Some(id);
      return true;
    }

    method Abandon(id: nat)
      modifies this`active
      ensures Value() == Next(old(Value()), Call.Abandon(id)).0
    {
      if active == Some(id) {
        active := None;
      }
    }

    method Complete(id: nat) returns (ok: bool)
      modifies this`active, this`completedOrder, this`completed
      ensures (Value(), if ok then Accepted else Refused) == Next(old(Value()), Call.Complete(id))
    {
      if active != Some(id) {
        return false;
      }
      active := None;
      completedOrder, completed := InsertBounded(id, completedOrder, completed);
      return true;
    }

    method RetireTimeout(id: nat) returns (ok: bool)
      modifies this`active, this`retiredOrder, this`retired
      ensures (Value(), if ok then Accepted else Refused) == Next(old(Value()), Call.RetireTimeout(id))
    {
      if active != Some(id) {
        return false;
      }
      active := None;
      retiredOrder, retired := InsertBounded(id, retiredOrder, retired);
      return true;
    }

    method Classify(id: nat) returns (incoming: Incoming)
      ensures (Value(), Is(incoming)) == Next(Value(), Call.Classify(id))
    {
      if active == Some(id) {
        return Current;
      }
      if id in retired {
        return Retired;
      }
      return if id in completed then Completed else Unknown;
    }

    static method InsertBounded(id: nat, order: seq<nat>, members: set<nat>)
      returns (newOrder: seq<nat>, newMembers: set<nat>)
      ensures Bounded(newOrder, newMembers) == Inserted(Bounded(order, members), id)
    {
      newOrder, newMembers := order + [id], members + {id};
      while |newOrder| > HISTORY_BOUND
        invariant Trimmed(Bounded(newOrder, newMembers)) == Inserted(Bounded(order, members), id)
        decreases |newOrder|
      {
        var expired := newOrder[0];
        newOrder := newOrder[1..];
        newMembers := newMembers - {expired};
      }
    }
  }

  // ------------------------------------------------------------ with whole histories

  datatype Ledger = Ledger(active: Option<nat>, completed: seq<nat>, retired: seq<nat>)

  function Recent(history: seq<nat>): seq<nat> {
    if |history| <= HISTORY_BOUND then history else history[|history| - HISTORY_BOUND..]
  }

  function LedgerNext(l: Ledger, call: Call): (Ledger, Answer) {
    match call
    case Begin(id) =>
      if id == 0 || l.active.Some? || id in Recent(l.completed) || id in Recent(l.retired) then (l, Refused)
      else (l.(active := Some(id)), Accepted)
    case Abandon(id) => (if l.active == Some(id) then l.(active := None) else l, Accepted)
    case Complete(id) =>
      if l.active != Some(id) then (l, Refused) else (l.(active := None, completed := l.completed + [id]), Accepted)
    case RetireTimeout(id) =>
      if l.active != Some(id) then (l, Refused) else (l.(active := None, retired := l.retired + [id]), Accepted)
    case Classify(id) =>
      (l, Is(if l.active == Some(id) then Current
             else if id in Recent(l.retired) then Retired
             else if id in Recent(l.completed) then Completed
             else Unknown))
  }

  /** The queue is the recent history, without repetition, and the set has what the queue has. */
  ghost predicate Remembers(b: Bounded, history: seq<nat>) {
    && b.order == Recent(history)
    && Distinct(b.order)
    && forall x :: x in b.members <==> x in b.order
  }

  /** The current, the remembered retired and the remembered completed identifiers are all different. */
  ghost predicate Disjoint(s: State) {
    && (forall x | x in s.completed.members :: x !in s.retired.members)
    && (s.active.Some? ==> s.active.value !in s.completed.members && s.active.value !in s.retired.members)
  }

  ghost predicate Refines(s: State, l: Ledger) {
    s.active == l.active && Remembers(s.completed, l.completed) && Remembers(s.retired, l.retired) && Disjoint(s)
  }

  lemma RecentAppend(history: seq<nat>, id: nat)
    ensures Recent(history + [id]) ==
      if |history| < HISTORY_BOUND then Recent(history) + [id] else Recent(history)[1..] + [id]
    ensures |history| >= HISTORY_BOUND ==> |Recent(history)| == HISTORY_BOUND
  {
  }

  lemma InsertIntoRoom(b: Bounded, history: seq<nat>, id: nat)
    requires Remembers(b, history) && id !in b.members && |history| < HISTORY_BOUND
    ensures Remembers(Inserted(b, id), history + [id])
    ensures forall x | x in Inserted(b, id).members :: x in b.members || x == id
  {
    RecentAppend(history, id);
    DistinctAppend(b.order, id);
  }

  lemma InsertIntoFull(b: Bounded, history: seq<nat>, id: nat)
    requires Remembers(b, history) && id !in b.members && |history| >= HISTORY_BOUND
    ensures Remembers(Inserted(b, id), history + [id])
    ensures forall x | x in Inserted(b, id).members :: x in b.members || x == id
  {
    RecentAppend(history, id);
    DistinctAppend(b.order, id);
    hide Recent;
    var longer := Bounded(b.order + [id], b.members + {id});
    var shorter := Bounded(longer.order[1..], longer.members - {longer.order[0]});
    assert Trimmed(longer) == shorter;
    assert shorter.order == b.order[1..] + [id];
    assert longer.order == [longer.order[0]] + shorter.order;
    assert longer.order[0] !in shorter.order;
  }

  /** A new identifier goes to the end of the queue and pushes out at most the oldest. */
  lemma InsertRemembers(b: Bounded, history: seq<nat>, id: nat)
    requires Remembers(b, history) && id !in b.members
    ensures Remembers(Inserted(b, id), history + [id])
    ensures forall x | x in Inserted(b, id).members :: x in b.members || x == id
  {
    hide Remembers, Inserted;
    if |history| < HISTORY_BOUND {
      InsertIntoRoom(b, history, id);
    } else {
      InsertIntoFull(b, history, id);
    }
  }

  /** One call on the bounded coordinator answers like the one with whole histories. */
  lemma StepRefines(s: State, l: Ledger, call: Call)
    requires Refines(s, l)
    ensures Next(s, call).1 == LedgerNext(l, call).1
    ensures Refines(Next(s, call).0, LedgerNext(l, call).0)
  {
    hide Inserted, Recent;
    if call.Complete? && s.active == Some(call.id) {
      InsertRemembers(s.completed, l.completed, call.id);
    }
    if call.RetireTimeout? && s.active == Some(call.id) {
      InsertRemembers(s.retired, l.retired, call.id);
    }
  }

  function Run(s: State, calls: seq<Call>): (State, seq<Answer>)
    decreases |calls|
  {
    if calls == [] then (s, [])
    else
      var (t, answer) := Next(s, calls[0]);
      var (u, answers) := Run(t, calls[1..]);
      (u, [answer] + answers)
  }

  function LedgerRun(l: Ledger, calls: seq<Call>): (Ledger, seq<Answer>)
    decreases |calls|
  {
    if calls == [] then (l, [])
    else
      var (m, answer) := LedgerNext(l, calls[0]);
      var (n, answers) := LedgerRun(m, calls[1..]);
      (n, [answer] + answers)
  }

  lemma {:induction false} RunRefinesFrom(s: State, l: Ledger, calls: seq<Call>)
    requires Refines(s, l)
    ensures Run(s, calls).1 == LedgerRun(l, calls).1 && Refines(Run(s, calls).0, LedgerRun(l, calls).0)
    decreases |calls|
  {
    if calls != [] {
      StepRefines(s, l, calls[0]);
      hide Refines, Next, LedgerNext;
      RunRefinesFrom(Next(s, calls[0]).0, LedgerNext(l, calls[0]).0, calls[1..]);
    }
  }

  /** Whatever the calls, the bounded coordinator gives the answers that whole histories would. */
  lemma RunRefines(calls: seq<Call>)
    ensures Run(START, calls).1 == LedgerRun(Ledger(None, [], []), calls).1
    ensures Refines(Run(START, calls).0, LedgerRun(Ledger(None, [], []), calls).0)
  {
    RunRefinesFrom(START, Ledger(None, [], []), calls);
  }

  // ------------------------------------------------------------ when an identifier may come back

  /** Two equal entries are more than the bound apart. */
  ghost predicate Spaced(history: seq<nat>) {
    forall i, j | 0 <= i < j < |history| && history[i] == history[j] :: j - i > HISTORY_BOUND
  }

  ghost predicate LedgerSpaced(l: Ledger) {
    && Spaced(l.completed) && Spaced(l.retired) && 0 !in l.completed && 0 !in l.retired
    && (l.active.Some? ==>
      l.active.value != 0 && l.active.value !in Recent(l.completed) && l.active.value !in Recent(l.retired))
  }

  lemma SpacedAppend(history: seq<nat>, id: nat)
    requires Spaced(history) && id !in Recent(history)
    ensures Spaced(history + [id])
  {
    var longer, recent := history + [id], Recent(history);
    var forgotten := |history| - |recent|;
    forall k | forgotten <= k < |history|
      ensures history[k] != id
    {
      assert recent[k - forgotten] == history[k];
    }
    forall i, j | 0 <= i < j < |longer| && longer[i] == longer[j]
      ensures j - i > HISTORY_BOUND
    {
    }
  }

  lemma LedgerStepStaysSpaced(l: Ledger, call: Call)
    requires LedgerSpaced(l)
    ensures LedgerSpaced(LedgerNext(l, call).0)
  {
    hide Recent, Spaced;
    if call.Complete? && l.active == Some(call.id) {
      SpacedAppend(l.completed, call.id);
    }
    if call.RetireTimeout? && l.active == Some(call.id) {
      SpacedAppend(l.retired, call.id);
    }
  }

  /** An identifier completes, or is retired, again only after more than 64 entries. */
  lemma {:induction false} RunStaysSpaced(l: Ledger, calls: seq<Call>)
    requires LedgerSpaced(l)
    ensures LedgerSpaced(LedgerRun(l, calls).0)
    decreases |calls|
  {
    if calls != [] {
      LedgerStepStaysSpaced(l, calls[0]);
      hide LedgerSpaced, LedgerNext;
      RunStaysSpaced(LedgerNext(l, calls[0]).0, calls[1..]);
    }
  }

  /** Over any calls, equal entries of either history are more than 64 apart. */
  lemma ReuseIsSpaced(calls: seq<Call>)
    ensures Spaced(LedgerRun(Ledger(None, [], []), calls).0.completed)
    ensures Spaced(LedgerRun(Ledger(None, [], []), calls).0.retired)
  {
    RunStaysSpaced(Ledger(None, [], []), calls);
  }
}
