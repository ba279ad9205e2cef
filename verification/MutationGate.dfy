/**
 RuntimeMutationGate.ts: mutual exclusion by a chain of promises. Every call waits for the
 turn of the call before it and leaves its own turn as the new tail.
 */
module MutationGate {
  import opened Wrappers

  /** A call of `run`, between its awaits. */
  datatype Phase = Waiting | Active | Done(threw: bool)

  /** `previous` is the turn the call found at the tail; its own turn is one past its index. */
  datatype Call = Call(previous: nat, phase: Phase)

  /** Turn 0 is the promise the gate starts with. */
  datatype Gate = Gate(calls: seq<Call>, tail: nat, resolved: set<nat>, started: seq<nat>)

  const NEW_GATE := Gate([], 0, {0}, [])

  datatype Event = Enter | Start(call: nat) | Finish(call: nat, threw: bool)

  predicate Enabled(g: Gate, e: Event) {
    match e
    case Enter => true
    case Start(k) => k < |g.calls| && g.calls[k].phase == Waiting && g.calls[k].previous in g.resolved
    case Finish(k, _) => k < |g.calls| && g.calls[k].phase == Active
  }

  /** One step of the code: up to `await previous`, from there into the operation, or its `finally`. */
  function Step(g: Gate, e: Event): Gate
    requires Enabled(g, e)
  {
    match e
    case Enter => g.(calls := g.calls + [Call(g.tail, Waiting)], tail := |g.calls| + 1)
    case Start(k) => g.(calls := g.calls[k := g.calls[k].(phase := Active)], started := g.started + [k])
    case Finish(k, threw) =>
      g.(calls := g.calls[k := g.calls[k].(phase := Done(threw))], resolved := g.resolved + {k + 1})
  }

  /** The specification: a lock with a queue. */
  datatype Mutex = Mutex(holder: Option<nat>, queue: seq<nat>)

  ghost predicate MutexStep(before: Mutex, e: Event, newcomer: nat, after: Mutex) {
    match e
    case Enter => after == before.(queue := before.queue + [newcomer])
    case Start(k) =>
      before.holder == None && before.queue != [] && before.queue[0] == k && after == Mutex(Some(k), before.queue[1..])
    case Finish(k, _) => before.holder == Some(k) && after == before.(holder := None)
  }

  /** How many calls are through: the first call not done. */
  function Served(calls: seq<Call>): (n: nat)
    ensures n <= |calls|
    ensures forall i | 0 <= i < n :: calls[i].phase.Done?
    ensures n < |calls| ==> !calls[n].phase.Done?
  {
    if calls == [] then 0
    else
      var n := Served(calls[..|calls| - 1]);
      if n < |calls| - 1 then n
      else if calls[|calls| - 1].phase.Done? then n + 1
      else n
  }

  function From(i: nat, n: nat): (s: seq<nat>)
    requires i <= n
    ensures |s| == n - i && forall j | 0 <= j < n - i :: s[j] == i + j
  {
    seq(n - i, j requires 0 <= j => i + j)
  }

  /** Done calls first, then at most one that is active, then only waiting ones. */
  ghost predicate InLine(g: Gate) {
    && g.tail == |g.calls|
    && (forall k | 0 <= k < |g.calls| :: g.calls[k].previous == k)
    && (forall t: nat :: t in g.resolved <==> t == 0 || (0 < t <= |g.calls| && g.calls[t - 1].phase.Done?))
    && (forall i, j | 0 <= i < j < |g.calls| :: g.calls[j].phase != Waiting ==> g.calls[i].phase.Done?)
  }

  /** Calls have started in call order, without gaps. */
  ghost predicate StartedInOrder(g: Gate) {
    var n := Served(g.calls);
    g.started == From(0, if n < |g.calls| && g.calls[n].phase == Active then n + 1 else n)
  }

  ghost predicate Reachable(g: Gate) {
    InLine(g) && StartedInOrder(g)
  }

  function MutexOf(g: Gate): Mutex {
    var n := Served(g.calls);
    if n < |g.calls| && g.calls[n].phase == Active then Mutex(Some(n), From(n + 1, |g.calls|))
    else Mutex(None, From(n, |g.calls|))
  }

  lemma ServedIs(calls: seq<Call>, n: nat)
    requires n <= |calls|
    requires forall i | 0 <= i < n :: calls[i].phase.Done?
    requires n < |calls| ==> !calls[n].phase.Done?
    ensures Served(calls) == n
  {
  }

  /** Exactly the first call that is not done can start or finish. */
  lemma OnlyTheFirstMoves(g: Gate, e: Event)
    requires InLine(g) && Enabled(g, e) && e != Enter
    ensures e.call == Served(g.calls)
  {
    var k := e.call;
    if e.Start? && k > 0 {
      assert g.calls[k].previous == k;
      assert g.calls[k - 1].phase.Done?;
    }
    ServedIs(g.calls, k);
  }

  lemma ServedAfter(g: Gate, e: Event)
    requires InLine(g) && Enabled(g, e)
    ensures Served(Step(g, e).calls) == if e.Finish? then Served(g.calls) + 1 else Served(g.calls)
  {
    var n := Served(g.calls);
    match e {
      case Enter => ServedIs(Step(g, e).calls, n);
      case Start(k) =>
        OnlyTheFirstMoves(g, e);
        ServedIs(Step(g, e).calls, n);
      case Finish(k, _) =>
        OnlyTheFirstMoves(g, e);
        assert n + 1 < |g.calls| ==> g.calls[n + 1].phase == Waiting;
        ServedIs(Step(g, e).calls, n + 1);
    }
  }

  lemma LineKept(g: Gate, e: Event)
    requires InLine(g) && Enabled(g, e)
    ensures InLine(Step(g, e))
  {
    if e != Enter {
      OnlyTheFirstMoves(g, e);
    }
  }

  lemma EnterRefines(g: Gate)
    requires Reachable(g)
    ensures StartedInOrder(Step(g, Enter)) && MutexStep(MutexOf(g), Enter, |g.calls|, MutexOf(Step(g, Enter)))
  {
    ServedAfter(g, Enter);
    assert MutexOf(Step(g, Enter)).queue == MutexOf(g).queue + [|g.calls|];
  }

  lemma StartRefines(g: Gate, k: nat)
    requires Reachable(g) && Enabled(g, Start(k))
    ensures StartedInOrder(Step(g, Start(k)))
    ensures MutexStep(MutexOf(g), Start(k), |g.calls|, MutexOf(Step(g, Start(k))))
  {
    hide InLine;
    var after := Step(g, Start(k));
    OnlyTheFirstMoves(g, Start(k));
    ServedAfter(g, Start(k));
    assert after.started == From(0, k + 1);
    assert MutexOf(after).queue == MutexOf(g).queue[1..];
  }

  lemma FinishRefines(g: Gate, k: nat, threw: bool)
    requires Reachable(g) && Enabled(g, Finish(k, threw))
    ensures StartedInOrder(Step(g, Finish(k, threw)))
    ensures MutexStep(MutexOf(g), Finish(k, threw), |g.calls|, MutexOf(Step(g, Finish(k, threw))))
  {
    var e := Finish(k, threw);
    OnlyTheFirstMoves(g, e);
    ServedAfter(g, e);
    assert k + 1 < |g.calls| ==> g.calls[k + 1].phase == Waiting;
  }

  /**
   The gate refines the lock: every step is the step of a lock whose queue is served in call
   order, and a call that throws leaves the lock like any other.
   */
  lemma RefinesMutex(g: Gate, e: Event)
    requires Reachable(g) && Enabled(g, e)
    ensures Reachable(Step(g, e))
    ensures MutexStep(MutexOf(g), e, |g.calls|, MutexOf(Step(g, e)))
  {
    hide StartedInOrder, InLine, MutexOf, MutexStep, Step;
    LineKept(g, e);
    match e {
      case Enter => EnterRefines(g);
      case Start(k) => StartRefines(g, k);
      case Finish(k, threw) => FinishRefines(g, k, threw);
    }
  }

  lemma NewGateIsReachable()
    ensures Reachable(NEW_GATE) && MutexOf(NEW_GATE) == Mutex(None, [])
  {
  }

  /** At most one operation is active at any time. */
  lemma AtMostOneActive(g: Gate, i: nat, j: nat)
    requires Reachable(g) && i < j < |g.calls|
    ensures !(g.calls[i].phase == Active && g.calls[j].phase == Active)
  {
  }

  // ----------------------------------------------------------------- progress

  /** Steps of the gate still needed until the first `n` calls are done. */
  function Needed(calls: seq<Call>, n: nat): nat
    requires n <= |calls|
  {
    if n == 0 then 0
    else
      Needed(calls, n - 1) + match calls[n - 1].phase
                             case Waiting => 2
                             case Active => 1
                             case Done(_) => 0
  }

  lemma {:induction false} NeededOnlyLooksAt(a: seq<Call>, b: seq<Call>, n: nat)
    requires n <= |a| && n <= |b| && forall i | 0 <= i < n :: a[i].phase == b[i].phase
    ensures Needed(a, n) == Needed(b, n)
  {
    if n > 0 {
      NeededOnlyLooksAt(a, b, n - 1);
    }
  }

  lemma {:induction false} NeededZero(calls: seq<Call>, n: nat)
    requires n <= |calls|
    ensures Needed(calls, n) == 0 <==> forall i | 0 <= i < n :: calls[i].phase.Done?
  {
    if n > 0 {
      NeededZero(calls, n - 1);
    }
  }

  lemma {:induction false} NeededAfterMove(g: Gate, e: Event, n: nat)
    requires InLine(g) && Enabled(g, e) && e != Enter
    requires e.call < n <= |g.calls|
    ensures Needed(Step(g, e).calls, n) == Needed(g.calls, n) - 1
  {
    if n - 1 == e.call {
      NeededOnlyLooksAt(g.calls, Step(g, e).calls, n - 1);
    } else {
      NeededAfterMove(g, e, n - 1);
    }
  }

  /**
   Every call that is not done yet comes one step closer with every start or finish, and no
   closer or further with an arrival: later calls never overtake it.
   */
  lemma EveryStepServesEveryone(g: Gate, e: Event, k: nat)
    requires Reachable(g) && Enabled(g, e) && k < |g.calls| && !g.calls[k].phase.Done?
    ensures Needed(Step(g, e).calls, k + 1) == Needed(g.calls, k + 1) - if e == Enter then 0 else 1
  {
    if e == Enter {
      NeededOnlyLooksAt(g.calls, Step(g, e).calls, k + 1);
    } else {
      OnlyTheFirstMoves(g, e);
      NeededAfterMove(g, e, k + 1);
    }
  }

  /** The gate never gets stuck: while calls are not done, one is active or one can start. */
  lemma NeverStuck(g: Gate)
    requires Reachable(g) && Served(g.calls) < |g.calls|
    ensures var n := Served(g.calls);
            (g.calls[n].phase == Active && forall threw :: Enabled(g, Finish(n, threw))) || Enabled(g, Start(n))
  {
  }

  function RunSteps(g: Gate, events: seq<Event>): (after: Option<Gate>) {
    if events == [] then Some(g)
    else
      var front := RunSteps(g, events[..|events| - 1]);
      if front.Some? && Enabled(front.value, events[|events| - 1]) then
        Some(Step(front.value, events[|events| - 1]))
      else None
  }

  function Moves(events: seq<Event>): nat {
    if events == [] then 0
    else Moves(events[..|events| - 1]) + if events[|events| - 1] == Enter then 0 else 1
  }

  /**
   If every operation ends, every queued call runs: along any run, a call is done exactly
   when the gate has made the starts and finishes it needed, however many calls arrived.
   */
  lemma {:induction false} ServedAfterItsTurns(g: Gate, events: seq<Event>, k: nat)
    requires Reachable(g) && k < |g.calls| && RunSteps(g, events).Some?
    ensures var after := RunSteps(g, events).value;
            && Reachable(after) && |g.calls| <= |after.calls|
            && (after.calls[k].phase.Done? <==> Moves(events) >= Needed(g.calls, k + 1))
            && (!after.calls[k].phase.Done? ==> Needed(after.calls, k + 1) == Needed(g.calls, k + 1) - Moves(events))
  {
    hide Reachable, Step, Enabled, Served;
    if events == [] {
      DoneIsZero(g, k);
    } else {
      var front, e := events[..|events| - 1], events[|events| - 1];
      ServedAfterItsTurns(g, front, k);
      var middle := RunSteps(g, front).value;
      RefinesMutex(middle, e);
      OneMoreTurn(middle, e, k);
    }
  }

  lemma DoneIsZero(g: Gate, k: nat)
    requires Reachable(g) && k < |g.calls|
    ensures g.calls[k].phase.Done? <==> Needed(g.calls, k + 1) == 0
  {
    NeededZero(g.calls, k + 1);
    if g.calls[k].phase.Done? {
      assert forall i | 0 <= i < k :: g.calls[i].phase.Done?;
    }
  }

  lemma OneMoreTurn(g: Gate, e: Event, k: nat)
    requires Reachable(g) && Enabled(g, e) && k < |g.calls|
    ensures |g.calls| <= |Step(g, e).calls|
    ensures g.calls[k].phase.Done? ==> Step(g, e).calls[k].phase.Done?
    ensures !g.calls[k].phase.Done? ==>
              && Needed(Step(g, e).calls, k + 1) == Needed(g.calls, k + 1) - (if e == Enter then 0 else 1)
              && (Step(g, e).calls[k].phase.Done? <==> Needed(Step(g, e).calls, k + 1) == 0)
  {
    RefinesMutex(g, e);
    DoneIsZero(Step(g, e), k);
    if !g.calls[k].phase.Done? {
      EveryStepServesEveryone(g, e, k);
    }
  }

  // -------------------------------------------------------------------- class

  /** A promise that only ever resolves. */
  class Turn {
    var resolved: bool

    constructor (resolved: bool)
      ensures this.resolved == resolved
    {
      this.resolved := resolved;
    }
  }

  /** The gate keeps nothing but its tail; the calls keep the turns they wait for. */
  class RuntimeMutationGate {
    var tail: Turn
    ghost var turns: seq<Turn>
    ghost var gate: Gate

    ghost predicate Valid()
      reads this, turns
    {
      && Reachable(gate)
      && |turns| == |gate.calls| + 1 && tail == turns[|gate.calls|]
      && (forall i, j | 0 <= i < j < |turns| :: turns[i] != turns[j])
      && (forall i: nat | i < |turns| :: turns[i].resolved <==> i in gate.resolved)
    }

    constructor ()
      ensures Valid() && gate == NEW_GATE && fresh(turns)
    {
      tail := new Turn(true);
      gate := NEW_GATE;
      new;
      turns := [tail];
    }

    /** From the call to `await previous`. */
    method Enter() returns (previous: Turn, turn: Turn)
      requires Valid()
      modifies this
      ensures Valid() && gate == Step(old(gate), Event.Enter)
      ensures fresh(turn) && turns == old(turns) + [turn] && previous == old(tail) && tail == turn
    {
      hide Reachable;
      RefinesMutex(gate, Event.Enter);
      TurnsAhead(gate);
      turn := new Turn(false);
      previous := tail;
      tail := turn;
      turns := turns + [turn];
      gate := Step(gate, Event.Enter);
    }

    /** Past the await: the operation begins. */
    method Start(ghost k: nat, previous: Turn)
      requires Valid() && k < |gate.calls| && gate.calls[k].phase == Waiting
      requires previous == turns[k] && previous.resolved
      modifies this`gate
      ensures Valid() && gate == Step(old(gate), Event.Start(k))
    {
      assert gate.calls[k].previous == k;
      RefinesMutex(gate, Event.Start(k));
      hide Reachable;
      gate := Step(gate, Event.Start(k));
    }

    /** The `finally`: the operation has returned or thrown, and the turn is released. */
    method Finish(ghost k: nat, turn: Turn, ghost threw: bool)
      requires Valid() && k < |gate.calls| && gate.calls[k].phase == Active && turn == turns[k + 1]
      modifies this`gate, turn
      ensures Valid() && gate == Step(old(gate), Event.Finish(k, threw)) && turn.resolved
    {
      hide Reachable;
      RefinesMutex(gate, Event.Finish(k, threw));
      turn.resolved := true;
      gate := Step(gate, Event.Finish(k, threw));
    }
  }

  /** The turn of a call that has not arrived is not resolved. */
  lemma TurnsAhead(g: Gate)
    requires Reachable(g)
    ensures |g.calls| + 1 !in g.resolved
  {
  }
}
