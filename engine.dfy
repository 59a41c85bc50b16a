/**
  The transition and dispatch engine of NinjaHSM as pure functions over a
  snapshot of the machine's fields.  `Transition` is `transitionTo`,
  `Dispatch` is `handleEvent`; the callbacks they invoke are run by
  `CallEntry`, `CallExit`, `CallEvent` and `Perform`, and a callback that
  calls `transitionTo` re-enters `Transition` (a reentrant transition).
  The class in module HsmMachine is proved to compute exactly these
  functions.
*/
module HsmEngine {
  import opened HsmTree

  /** Bound on the number of nested `transitionTo` calls in one transition. */
  const MAX_RECURSION_COUNT: nat := 10

  /** A callback the engine invoked, in the order it invoked them. */
  datatype Call = Entry(state: int) | Exit(state: int) | Event(state: int)

  /** The fields of the state machine, plus the invocation counts of the
      scripted entry and exit callbacks (data of the application's callbacks)
      and the trace of callback invocations. */
  datatype Engine = Engine(
    currentState: int,
    transitionToCalled: bool,
    eventHandledCalled: bool,
    calledEntryState: int,
    calledExitState: int,
    maxRecursionCount: nat,
    entryRuns: seq<nat>,
    exitRuns: seq<nat>,
    trace: seq<Call>)

  /** Every state reference of the engine is Null or a state of `tree`. */
  predicate Fits<E>(tree: seq<State<E>>, m: Engine) {
    && IsRef(tree, m.currentState)
    && IsRef(tree, m.calledEntryState)
    && IsRef(tree, m.calledExitState)
    && |m.entryRuns| == |tree|
    && |m.exitRuns| == |tree|
  }

  /** A freshly constructed machine: no current state, both flags false,
      both markers null, the counter at 0, no callback has run yet. */
  function Initial(n: nat): (m: Engine)
    ensures m.currentState == Null && m.maxRecursionCount == 0 && m.trace == []
    ensures m.calledEntryState == Null && m.calledExitState == Null
    ensures !m.transitionToCalled && !m.eventHandledCalled
    ensures |m.entryRuns| == n && |m.exitRuns| == n
    ensures forall s :: 0 <= s < n ==> m.entryRuns[s] == 0 && m.exitRuns[s] == 0
  {
    Engine(Null, false, false, Null, Null, 0, seq(n, _ => 0), seq(n, _ => 0), [])
  }

  /** The measure that bounds nested calls: what is left of the budget of
      MAX_RECURSION_COUNT nested transitions. */
  function Budget(count: nat): nat {
    if count < MAX_RECURSION_COUNT then MAX_RECURSION_COUNT - count else 0
  }

  /** The new state compared with the old: nested transitions raise the
      counter, but never past one above the bound; an outermost one brings it
      back to 0; and unless the counter moved the current state did not. */
  predicate CounterStep(m: Engine, r: Engine) {
    && (m.maxRecursionCount == 0 ==> r.maxRecursionCount == 0)
    && (m.maxRecursionCount <= MAX_RECURSION_COUNT ==> r.maxRecursionCount <= MAX_RECURSION_COUNT + 1)
    && (m.maxRecursionCount > 0 ==> r.maxRecursionCount >= m.maxRecursionCount)
    && (m.maxRecursionCount > 0 && r.maxRecursionCount == m.maxRecursionCount ==>
          r.currentState == m.currentState)
  }

  /** Each marker is kept or cleared, never set to another state: a marker
      set around a callback is cleared again once the callback returns. */
  predicate KeepsMarkers(m: Engine, r: Engine) {
    && (r.calledEntryState == m.calledEntryState || r.calledEntryState == Null)
    && (r.calledExitState == m.calledExitState || r.calledExitState == Null)
  }

  /** What holds of every step of a transition: the trace only grows and
      never gains an event call, the markers are kept or cleared, and a flag
      once set stays set. */
  predicate Grows(m: Engine, r: Engine) {
    && m.trace <= r.trace
    && (forall k :: |m.trace| <= k < |r.trace| ==> !r.trace[k].Event?)
    && KeepsMarkers(m, r)
    && (m.transitionToCalled ==> r.transitionToCalled)
    && (m.eventHandledCalled ==> r.eventHandledCalled)
  }

  /** The end of `transitionTo` (label END): the outermost invocation resets
      the counter for the next top-level transition. */
  function Finish(m: Engine, our: nat): (r: Engine)
    ensures r.maxRecursionCount == (if our == 1 then 0 else m.maxRecursionCount)
    ensures r == m.(maxRecursionCount := r.maxRecursionCount)
  {
    if our == 1 then m.(maxRecursionCount := 0) else m
  }

  /** The reconciliation of a transition issued from inside an entry or exit
      callback.  If the state being entered is the destination or one of its
      ancestors, the transition resumes from it (it counts as entered); if the
      state being exited is not, the transition resumes from its parent (it
      counts as exited). */
  function Reconcile<E>(tree: seq<State<E>>, m: Engine, d: int): (r: Engine)
    requires WellFormed(tree) && Fits(tree, m) && 0 <= d < |tree|
    ensures Fits(tree, r)
    ensures var entered := m.calledEntryState != Null && m.calledEntryState in Chain(tree, d);
      var exited := m.calledExitState != Null && m.calledExitState !in Chain(tree, d);
      && r.calledEntryState == (if entered then Null else m.calledEntryState)
      && r.calledExitState == (if exited then Null else m.calledExitState)
      && r.currentState ==
           (if exited then tree[m.calledExitState].parent
            else if entered then m.calledEntryState
            else m.currentState)
    ensures r == m.(currentState := r.currentState, calledEntryState := r.calledEntryState,
                    calledExitState := r.calledExitState)
  {
    var m1 :=
      if m.calledEntryState != Null && m.calledEntryState in Chain(tree, d)
      then m.(currentState := m.calledEntryState, calledEntryState := Null)
      else m;
    if m1.calledExitState != Null && m1.calledExitState !in Chain(tree, d)
    then m1.(currentState := tree[m1.calledExitState].parent, calledExitState := Null)
    else m1
  }

  /** The state `transitionTo(d)` starts walking from once it has reconciled
      the markers. */
  function ResumeFrom<E>(tree: seq<State<E>>, m: Engine, d: int): (s: int)
    requires WellFormed(tree) && Fits(tree, m) && 0 <= d < |tree|
    ensures IsRef(tree, s)
  {
    Reconcile(tree, m, d).currentState
  }

  /** `transitionTo(d)`. */
  function Transition<E>(tree: seq<State<E>>, m: Engine, d: int): (r: Engine)
    requires WellFormed(tree) && Fits(tree, m) && 0 <= d < |tree|
    ensures Fits(tree, r) && Grows(m, r) && r.transitionToCalled
    ensures m.maxRecursionCount == 0 ==> r.maxRecursionCount == 0
    ensures m.maxRecursionCount > 0 ==> r.maxRecursionCount > m.maxRecursionCount
    ensures m.maxRecursionCount <= MAX_RECURSION_COUNT ==> r.maxRecursionCount <= MAX_RECURSION_COUNT + 1
    ensures m.maxRecursionCount >= MAX_RECURSION_COUNT ==>
      && r.maxRecursionCount == m.maxRecursionCount + 1
      && r.trace == m.trace && r.currentState == m.currentState
      && r.calledEntryState == m.calledEntryState && r.calledExitState == m.calledExitState
    decreases Budget(m.maxRecursionCount), 1
  {
    var m1 := m.(transitionToCalled := true, maxRecursionCount := m.maxRecursionCount + 1);
    if m1.maxRecursionCount > MAX_RECURSION_COUNT then m1
    else Resume(tree, Reconcile(tree, m1, d), d, m1.maxRecursionCount)
  }

  /** The rest of `transitionTo` once the markers are reconciled, run by the
      invocation whose counter value is `our`: exit the current state first
      if it is the destination, walk to the destination, and at END reset the
      counter if this is the outermost invocation. */
  function Resume<E>(tree: seq<State<E>>, m: Engine, d: int, our: nat): (r: Engine)
    requires WellFormed(tree) && Fits(tree, m) && 0 <= d < |tree|
    requires 1 <= our <= MAX_RECURSION_COUNT && m.maxRecursionCount == our
    ensures Fits(tree, r) && Grows(m, r)
    ensures our == 1 ==> r.maxRecursionCount == 0
    ensures our > 1 ==> our <= r.maxRecursionCount <= MAX_RECURSION_COUNT + 1
    decreases Budget(our), 5
  {
    if m.currentState == d then
      var m1 := CallExit(tree, m, d);
      if m1.maxRecursionCount != our then Finish(m1, our)
      else TransitionLoop(tree, m1.(currentState := tree[d].parent), d, our)
    else
      TransitionLoop(tree, m, d, our)
  }

  /** The measure of the transition loop, which falls in both branches: off
      the destination's chain the walk climbs and the index falls; on it the
      walk descends and the index rises. Every off-chain value exceeds every
      on-chain one. */
  function LoopRank<E>(tree: seq<State<E>>, cur: int, d: int): nat
    requires WellFormed(tree) && IsRef(tree, cur) && 0 <= d < |tree|
  {
    if OnPath(tree, cur, d) then |tree| - cur else |tree| + 1 + cur + 1
  }

  /** The loop of `transitionTo` (one entry or one exit per iteration), run by
      the invocation whose counter value is `our`. */
  function TransitionLoop<E>(tree: seq<State<E>>, m: Engine, d: int, our: nat): (r: Engine)
    requires WellFormed(tree) && Fits(tree, m) && 0 <= d < |tree|
    requires 1 <= our <= MAX_RECURSION_COUNT && m.maxRecursionCount == our
    ensures Fits(tree, r) && Grows(m, r)
    ensures our == 1 ==> r.maxRecursionCount == 0
    ensures our > 1 ==> our <= r.maxRecursionCount <= MAX_RECURSION_COUNT + 1
    decreases Budget(our), 4, LoopRank(tree, m.currentState, d), 1
  {
    if m.currentState == d then Finish(m, our)
    else
      var next := BranchChild(tree, d, m.currentState);
      if next.Some? then LoopEnter(tree, m, d, our, next.value)
      else LoopExit(tree, m, d, our)
  }

  /** An iteration on the way down: mark and enter `next`, the state on the
      destination's chain whose parent is current, and go on from it unless
      its entry callback made a nested transition. */
  function LoopEnter<E>(tree: seq<State<E>>, m: Engine, d: int, our: nat, next: int): (r: Engine)
    requires WellFormed(tree) && Fits(tree, m) && 0 <= d < |tree|
    requires 1 <= our <= MAX_RECURSION_COUNT && m.maxRecursionCount == our
    requires m.currentState != d && BranchChild(tree, d, m.currentState) == Some(next)
    ensures Fits(tree, r) && Grows(m, r)
    ensures our == 1 ==> r.maxRecursionCount == 0
    ensures our > 1 ==> our <= r.maxRecursionCount <= MAX_RECURSION_COUNT + 1
    decreases Budget(our), 4, LoopRank(tree, m.currentState, d), 0
  {
    var m1 := CallEntry(tree, m.(calledEntryState := next), next);
    var m2 := m1.(calledEntryState := Null);
    if m2.maxRecursionCount != our then Finish(m2, our)
    else TransitionLoop(tree, m2.(currentState := next), d, our)
  }

  /** An iteration on the way up: mark and exit the current state, which is
      off the destination's chain, and go on from its parent unless its exit
      callback made a nested transition. */
  function LoopExit<E>(tree: seq<State<E>>, m: Engine, d: int, our: nat): (r: Engine)
    requires WellFormed(tree) && Fits(tree, m) && 0 <= d < |tree|
    requires 1 <= our <= MAX_RECURSION_COUNT && m.maxRecursionCount == our
    requires m.currentState != d && BranchChild(tree, d, m.currentState).None?
    ensures Fits(tree, r) && Grows(m, r)
    ensures our == 1 ==> r.maxRecursionCount == 0
    ensures our > 1 ==> our <= r.maxRecursionCount <= MAX_RECURSION_COUNT + 1
    decreases Budget(our), 4, LoopRank(tree, m.currentState, d), 0
  {
    OffPathWhenNotFound(tree, d, m.currentState);
    var m1 := CallExit(tree, m.(calledExitState := m.currentState), m.currentState);
    var m2 := m1.(calledExitState := Null);
    if m2.maxRecursionCount != our then Finish(m2, our)
    else TransitionLoop(tree, m2.(currentState := tree[m2.currentState].parent), d, our)
  }

  /** The search of the loop fails only for a state off the destination's
      chain; in particular never for Null. */
  lemma {:induction false} OffPathWhenNotFound<E>(tree: seq<State<E>>, d: int, cur: int)
    requires WellFormed(tree) && IsRef(tree, d) && cur != d
    requires BranchChild(tree, d, cur).None?
    ensures !OnPath(tree, cur, d)
    decreases d + 1
  {
    if d != Null {
      var p := tree[d].parent;
      if cur != p {
        OffPathWhenNotFound(tree, p, cur);
      }
    }
  }

  /** Invokes the entry callback of state `s`. */
  function CallEntry<E>(tree: seq<State<E>>, m: Engine, s: int): (r: Engine)
    requires WellFormed(tree) && Fits(tree, m) && 0 <= s < |tree|
    ensures Fits(tree, r) && Grows(m, r) && CounterStep(m, r)
    ensures m.trace + [Entry(s)] <= r.trace
    decreases Budget(m.maxRecursionCount), 3
  {
    Perform(tree, EntryRecorded(m, s), ActionAt(tree[s].entry, m.entryRuns[s]))
  }

  /** The engine once an invocation of the entry callback of `s` is recorded:
      traced and counted. */
  function EntryRecorded(m: Engine, s: int): (r: Engine)
    requires 0 <= s < |m.entryRuns|
    ensures r.trace == m.trace + [Entry(s)]
    ensures |r.entryRuns| == |m.entryRuns| && r.entryRuns[s] == m.entryRuns[s] + 1
    ensures forall x :: 0 <= x < |m.entryRuns| && x != s ==> r.entryRuns[x] == m.entryRuns[x]
    ensures r == m.(trace := r.trace, entryRuns := r.entryRuns)
  {
    m.(trace := m.trace + [Entry(s)], entryRuns := m.entryRuns[s := m.entryRuns[s] + 1])
  }

  /** Invokes the exit callback of state `s`. */
  function CallExit<E>(tree: seq<State<E>>, m: Engine, s: int): (r: Engine)
    requires WellFormed(tree) && Fits(tree, m) && 0 <= s < |tree|
    ensures Fits(tree, r) && Grows(m, r) && CounterStep(m, r)
    ensures m.trace + [Exit(s)] <= r.trace
    decreases Budget(m.maxRecursionCount), 3
  {
    Perform(tree, ExitRecorded(m, s), ActionAt(tree[s].exit, m.exitRuns[s]))
  }

  /** The engine once an invocation of the exit callback of `s` is recorded:
      traced and counted. */
  function ExitRecorded(m: Engine, s: int): (r: Engine)
    requires 0 <= s < |m.exitRuns|
    ensures r.trace == m.trace + [Exit(s)]
    ensures |r.exitRuns| == |m.exitRuns| && r.exitRuns[s] == m.exitRuns[s] + 1
    ensures forall x :: 0 <= x < |m.exitRuns| && x != s ==> r.exitRuns[x] == m.exitRuns[x]
    ensures r == m.(trace := r.trace, exitRuns := r.exitRuns)
  {
    m.(trace := m.trace + [Exit(s)], exitRuns := m.exitRuns[s := m.exitRuns[s] + 1])
  }

  /** What one callback does: nothing, `transitionTo(t)` or `eventHandled()`. */
  function Perform<E>(tree: seq<State<E>>, m: Engine, a: Action): (r: Engine)
    requires WellFormed(tree) && Fits(tree, m) && ValidAction(|tree|, a)
    ensures Fits(tree, r) && Grows(m, r) && CounterStep(m, r)
    ensures a.TransitionTo? ==> r.transitionToCalled
    ensures a.MarkHandled? ==> r.eventHandledCalled
    decreases Budget(m.maxRecursionCount), 2
  {
    match a
    case Nop => m
    case MarkHandled => m.(eventHandledCalled := true)
    case TransitionTo(t) => Transition(tree, m, t)
  }

  /** Invokes the event callback of state `s` with event `e`. */
  function CallEvent<E>(tree: seq<State<E>>, m: Engine, s: int, e: E): (r: Engine)
    requires WellFormed(tree) && Fits(tree, m) && 0 <= s < |tree|
    ensures Fits(tree, r) && CounterStep(m, r) && KeepsMarkers(m, r)
    ensures m.trace + [Event(s)] <= r.trace
  {
    Perform(tree, m.(trace := m.trace + [Event(s)]), ReactionTo(tree[s].event, e))
  }

  /** `handleEvent(e)`: clear both flags, then bubble the event up from the
      current state. */
  function Dispatch<E>(tree: seq<State<E>>, m: Engine, e: E): (r: Engine)
    requires WellFormed(tree) && Fits(tree, m)
    ensures Fits(tree, r) && CounterStep(m, r) && KeepsMarkers(m, r) && m.trace <= r.trace
  {
    Bubble(tree, m.(transitionToCalled := false, eventHandledCalled := false), m.currentState, e)
  }

  /** The bubbling loop of `handleEvent`: offer `e` to `s`, then to its
      ancestors, until a callback has called `transitionTo` or
      `eventHandled`, or the root has had its turn. */
  function Bubble<E>(tree: seq<State<E>>, m: Engine, s: int, e: E): (r: Engine)
    requires WellFormed(tree) && Fits(tree, m) && IsRef(tree, s)
    ensures Fits(tree, r) && CounterStep(m, r) && KeepsMarkers(m, r) && m.trace <= r.trace
    decreases s + 1
  {
    if s == Null then m
    else
      var m1 := CallEvent(tree, m, s, e);
      if m1.transitionToCalled || m1.eventHandledCalled then m1
      else Bubble(tree, m1, tree[s].parent, e)
  }
}
