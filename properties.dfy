/**
  What `transitionTo` and `handleEvent` do, proved about the functions of
  HsmEngine: a transition whose callbacks make no nested transition makes
  exactly the calls of `ReferenceCalls` and ends in the destination; the
  reconciliation rules of reentrant transitions; the bubbling of events.
*/
module HsmProperties {
  import opened HsmTree
  import opened HsmEngine
  import opened HsmReference

  // ----- callbacks that do not transition -----

  /** The next run of the entry callback of `s` does not call `transitionTo`. */
  predicate QuietEntry<E>(tree: seq<State<E>>, m: Engine, s: int)
    requires Fits(tree, m) && 0 <= s < |tree|
  {
    !ActionAt(tree[s].entry, m.entryRuns[s]).TransitionTo?
  }

  /** The next run of the exit callback of `s` does not call `transitionTo`. */
  predicate QuietExit<E>(tree: seq<State<E>>, m: Engine, s: int)
    requires Fits(tree, m) && 0 <= s < |tree|
  {
    !ActionAt(tree[s].exit, m.exitRuns[s]).TransitionTo?
  }

  /** No callback of the transition from `c` to `d` calls `transitionTo`. */
  predicate Quiet<E>(tree: seq<State<E>>, m: Engine, c: int, d: int)
    requires WellFormed(tree) && Fits(tree, m) && IsRef(tree, c) && 0 <= d < |tree|
  {
    if c == d then QuietExit(tree, m, d) && QuietEntry(tree, m, d)
    else
      var l := CommonAncestor(tree, c, d);
      && (forall x :: x in Below(tree, c, l) ==> QuietExit(tree, m, x))
      && (forall x :: x in Below(tree, d, l) ==> QuietEntry(tree, m, x))
  }

  /** A transition from the parent of `d` to `d` is quiet when the entry of
      `d` is. */
  lemma ChildQuiet<E>(tree: seq<State<E>>, m: Engine, d: int)
    requires WellFormed(tree) && Fits(tree, m) && 0 <= d < |tree| && QuietEntry(tree, m, d)
    ensures Quiet(tree, m, tree[d].parent, d)
  {
    ChildReference(tree, d);
  }

  /** A quiet entry callback is recorded, counted, and may mark the event
      handled; nothing else changes. */
  lemma QuietCallEntry<E>(tree: seq<State<E>>, m: Engine, s: int)
    requires WellFormed(tree) && Fits(tree, m) && 0 <= s < |tree| && QuietEntry(tree, m, s)
    ensures CallEntry(tree, m, s) == m.(
      trace := m.trace + [Entry(s)],
      entryRuns := m.entryRuns[s := m.entryRuns[s] + 1],
      eventHandledCalled := m.eventHandledCalled || ActionAt(tree[s].entry, m.entryRuns[s]).MarkHandled?)
  {
  }

  /** A quiet exit callback is recorded, counted, and may mark the event
      handled; nothing else changes. */
  lemma QuietCallExit<E>(tree: seq<State<E>>, m: Engine, s: int)
    requires WellFormed(tree) && Fits(tree, m) && 0 <= s < |tree| && QuietExit(tree, m, s)
    ensures CallExit(tree, m, s) == m.(
      trace := m.trace + [Exit(s)],
      exitRuns := m.exitRuns[s := m.exitRuns[s] + 1],
      eventHandledCalled := m.eventHandledCalled || ActionAt(tree[s].exit, m.exitRuns[s]).MarkHandled?)
  {
  }

  // ----- the transition loop -----

  lemma ReverseSnoc(a: seq<int>, x: int)
    ensures Reverse(a + [x]) == [x] + Reverse(a)
  {
    assert forall k :: 0 <= k < |a| + 1 ==> Reverse(a + [x])[k] == ([x] + Reverse(a))[k];
  }

  /** The engine after the quiet entry callback of `s` has run, on the way
      down: `s` is current, the marker is cleared. */
  function Entered<E>(tree: seq<State<E>>, m: Engine, s: int): (r: Engine)
    requires Fits(tree, m) && 0 <= s < |tree|
    ensures Fits(tree, r)
  {
    m.(currentState := s, calledEntryState := Null,
       trace := m.trace + [Entry(s)],
       entryRuns := m.entryRuns[s := m.entryRuns[s] + 1],
       eventHandledCalled := m.eventHandledCalled || ActionAt(tree[s].entry, m.entryRuns[s]).MarkHandled?)
  }

  /** The engine after the quiet exit callback of the current state `s` has
      run, on the way up: the parent of `s` is current, the marker is
      cleared. */
  function Exited<E>(tree: seq<State<E>>, m: Engine, s: int): (r: Engine)
    requires WellFormed(tree) && Fits(tree, m) && 0 <= s < |tree|
    ensures Fits(tree, r)
  {
    m.(currentState := tree[s].parent, calledExitState := Null,
       trace := m.trace + [Exit(s)],
       exitRuns := m.exitRuns[s := m.exitRuns[s] + 1],
       eventHandledCalled := m.eventHandledCalled || ActionAt(tree[s].exit, m.exitRuns[s]).MarkHandled?)
  }

  /** One iteration of the loop on the way down, with a quiet callback. */
  lemma EnterStep<E>(tree: seq<State<E>>, m: Engine, d: int, our: nat, next: int)
    requires WellFormed(tree) && Fits(tree, m) && 0 <= d < |tree|
    requires 1 <= our <= MAX_RECURSION_COUNT && m.maxRecursionCount == our
    requires m.currentState != d && BranchChild(tree, d, m.currentState) == Some(next)
    requires QuietEntry(tree, m, next)
    ensures TransitionLoop(tree, m, d, our) == TransitionLoop(tree, Entered(tree, m, next), d, our)
  {
    QuietCallEntry(tree, m.(calledEntryState := next), next);
  }

  /** One iteration of the loop on the way up, with a quiet callback. */
  lemma ExitStep<E>(tree: seq<State<E>>, m: Engine, d: int, our: nat)
    requires WellFormed(tree) && Fits(tree, m) && 0 <= d < |tree|
    requires 1 <= our <= MAX_RECURSION_COUNT && m.maxRecursionCount == our
    requires m.currentState != d && BranchChild(tree, d, m.currentState).None?
    requires 0 <= m.currentState && QuietExit(tree, m, m.currentState)
    ensures TransitionLoop(tree, m, d, our) == TransitionLoop(tree, Exited(tree, m, m.currentState), d, our)
  {
    var cur := m.currentState;
    var m0 := m.(calledExitState := cur);
    QuietCallExit(tree, m0, cur);
    var m1 := CallExit(tree, m0, cur).(calledExitState := Null);
    assert m1.maxRecursionCount == our && m1.currentState == cur;
    assert m1.(currentState := tree[cur].parent) == Exited(tree, m, cur);
  }

  /** The engine while the entry callback of `s` runs: marked, recorded and
      counted. */
  function Entering<E>(tree: seq<State<E>>, m: Engine, s: int): (r: Engine)
    requires Fits(tree, m) && 0 <= s < |tree|
    ensures Fits(tree, r)
  {
    EntryRecorded(m.(calledEntryState := s), s)
  }

  /** The engine while the exit callback of `s` runs: marked, recorded and
      counted. */
  function Exiting<E>(tree: seq<State<E>>, m: Engine, s: int): (r: Engine)
    requires Fits(tree, m) && 0 <= s < |tree|
    ensures Fits(tree, r)
  {
    ExitRecorded(m.(calledExitState := s), s)
  }

  /** An entry callback that calls `transitionTo(t)` ends the loop that
      invoked it: what the nested transition leaves is the result, with the
      entry marker cleared and, for the outermost call, the counter reset. */
  lemma NestedEntry<E>(tree: seq<State<E>>, m: Engine, d: int, our: nat, next: int, t: int)
    requires WellFormed(tree) && Fits(tree, m) && 0 <= d < |tree|
    requires 1 <= our <= MAX_RECURSION_COUNT && m.maxRecursionCount == our
    requires m.currentState != d && BranchChild(tree, d, m.currentState) == Some(next)
    requires ActionAt(tree[next].entry, m.entryRuns[next]) == TransitionTo(t)
    ensures TransitionLoop(tree, m, d, our) ==
      Finish(Transition(tree, Entering(tree, m, next), t).(calledEntryState := Null), our)
  {
    EntryCallTransitions(tree, m, next, t);
    assert TransitionLoop(tree, m, d, our) == LoopEnter(tree, m, d, our, next);
  }

  /** Running the entry callback of `s` is performing its next action on
      the marked and recorded engine. */
  lemma EntryCallPerforms<E>(tree: seq<State<E>>, m: Engine, s: int)
    requires WellFormed(tree) && Fits(tree, m) && 0 <= s < |tree|
    ensures ValidAction(|tree|, ActionAt(tree[s].entry, m.entryRuns[s]))
    ensures CallEntry(tree, m.(calledEntryState := s), s) == Perform(tree, Entering(tree, m, s), ActionAt(tree[s].entry, m.entryRuns[s]))
  {
    assert ValidScript(|tree|, tree[s].entry);
  }

  /** Running an entry callback that calls `transitionTo(t)` is the nested
      transition, started from the marked and recorded engine. */
  lemma EntryCallTransitions<E>(tree: seq<State<E>>, m: Engine, s: int, t: int)
    requires WellFormed(tree) && Fits(tree, m) && 0 <= s < |tree|
    requires ActionAt(tree[s].entry, m.entryRuns[s]) == TransitionTo(t)
    ensures 0 <= t < |tree|
    ensures CallEntry(tree, m.(calledEntryState := s), s) == Transition(tree, Entering(tree, m, s), t)
  {
    EntryCallPerforms(tree, m, s);
  }

  /** Running the exit callback of `s` is performing its next action on
      the marked and recorded engine. */
  lemma ExitCallPerforms<E>(tree: seq<State<E>>, m: Engine, s: int)
    requires WellFormed(tree) && Fits(tree, m) && 0 <= s < |tree|
    ensures ValidAction(|tree|, ActionAt(tree[s].exit, m.exitRuns[s]))
    ensures CallExit(tree, m.(calledExitState := s), s) == Perform(tree, Exiting(tree, m, s), ActionAt(tree[s].exit, m.exitRuns[s]))
  {
    assert ValidScript(|tree|, tree[s].exit);
  }

  /** Running an exit callback that calls `transitionTo(t)` is the nested
      transition, started from the marked and recorded engine. */
  lemma ExitCallTransitions<E>(tree: seq<State<E>>, m: Engine, s: int, t: int)
    requires WellFormed(tree) && Fits(tree, m) && 0 <= s < |tree|
    requires ActionAt(tree[s].exit, m.exitRuns[s]) == TransitionTo(t)
    ensures 0 <= t < |tree|
    ensures CallExit(tree, m.(calledExitState := s), s) == Transition(tree, Exiting(tree, m, s), t)
  {
    ExitCallPerforms(tree, m, s);
  }

  /** An exit callback that calls `transitionTo(t)` ends the loop that
      invoked it: what the nested transition leaves is the result, with the
      exit marker cleared and, for the outermost call, the counter reset. */
  lemma NestedExit<E>(tree: seq<State<E>>, m: Engine, d: int, our: nat, t: int)
    requires WellFormed(tree) && Fits(tree, m) && 0 <= d < |tree|
    requires 1 <= our <= MAX_RECURSION_COUNT && m.maxRecursionCount == our
    requires m.currentState != d && BranchChild(tree, d, m.currentState).None?
    requires 0 <= m.currentState && ActionAt(tree[m.currentState].exit, m.exitRuns[m.currentState]) == TransitionTo(t)
    ensures TransitionLoop(tree, m, d, our) ==
      Finish(Transition(tree, Exiting(tree, m, m.currentState), t).(calledExitState := Null), our)
  {
    ExitCallTransitions(tree, m, m.currentState, t);
    assert TransitionLoop(tree, m, d, our) == LoopExit(tree, m, d, our);
  }

  /** A transition to the current state whose exit callback calls
      `transitionTo(t)` stops after that callback (the `goto END`): no entry
      follows and the current state is not moved; what the nested transition
      leaves is the result, with the counter reset for the outermost call. */
  lemma NestedSelfExit<E>(tree: seq<State<E>>, m: Engine, d: int, our: nat, t: int)
    requires WellFormed(tree) && Fits(tree, m) && 0 <= d < |tree|
    requires 1 <= our <= MAX_RECURSION_COUNT && m.maxRecursionCount == our
    requires m.currentState == d && ActionAt(tree[d].exit, m.exitRuns[d]) == TransitionTo(t)
    ensures 0 <= t < |tree|
    ensures Resume(tree, m, d, our) == Finish(Transition(tree, ExitRecorded(m, d), t), our)
  {
    assert ValidScript(|tree|, tree[d].exit);
    var m1 := CallExit(tree, m, d);
    assert m1 == Perform(tree, ExitRecorded(m, d), TransitionTo(t));
    assert m1 == Transition(tree, ExitRecorded(m, d), t);
    assert m1.maxRecursionCount > our;
  }

  lemma EntriesOfReverseSnoc(b: seq<int>, x: int)
    ensures Entries(Reverse(b + [x])) == [Entry(x)] + Entries(Reverse(b))
  {
    ReverseSnoc(b, x);
    assert Entries([x] + Reverse(b)) == [Entry(x)] + Entries(Reverse(b));
  }

  /** Entering `next` on the way down keeps the entries still to come quiet. */
  lemma QuietAfterEntry<E>(tree: seq<State<E>>, m: Engine, d: int, next: int)
    requires WellFormed(tree) && Fits(tree, m) && 0 <= d < |tree| && OnPath(tree, m.currentState, d)
    requires next in Chain(tree, d) && tree[next].parent == m.currentState
    requires forall x :: x in Below(tree, d, m.currentState) ==> QuietEntry(tree, m, x)
    ensures OnPath(tree, next, d)
    ensures Below(tree, d, m.currentState) == Below(tree, d, next) + [next]
    ensures QuietEntry(tree, m, next)
    ensures forall x :: x in Below(tree, d, next) ==> QuietEntry(tree, Entered(tree, m, next), x)
  {
    BelowSplit(tree, d, m.currentState, next);
    forall x | x in Below(tree, d, next)
      ensures QuietEntry(tree, Entered(tree, m, next), x)
    {
      assert x in Below(tree, d, m.currentState) && x != next;
    }
  }

  /** The loop from a state on the destination's chain makes the entry of
      the next state down and then what the loop from that state makes. */
  lemma DescendsAfterEntry<E>(tree: seq<State<E>>, m: Engine, d: int, our: nat, next: int)
    requires WellFormed(tree) && Fits(tree, m) && 0 <= d < |tree|
    requires 1 <= our <= MAX_RECURSION_COUNT && m.maxRecursionCount == our
    requires OnPath(tree, m.currentState, d) && m.currentState != d
    requires BranchChild(tree, d, m.currentState) == Some(next)
    requires forall x :: x in Below(tree, d, m.currentState) ==> QuietEntry(tree, m, x)
    requires OnPath(tree, next, d)
    requires var m2 := Entered(tree, m, next);
      var r := TransitionLoop(tree, m2, d, our);
      && r.currentState == d
      && r.trace == m2.trace + Entries(Reverse(Below(tree, d, next)))
      && r.maxRecursionCount == (if our == 1 then 0 else our)
    ensures var r := TransitionLoop(tree, m, d, our);
      && r.currentState == d
      && r.trace == m.trace + Entries(Reverse(Below(tree, d, m.currentState)))
      && r.maxRecursionCount == (if our == 1 then 0 else our)
  {
    QuietAfterEntry(tree, m, d, next);
    EnterStep(tree, m, d, our, next);
    EntriesOfReverseSnoc(Below(tree, d, next), next);
    var m2 := Entered(tree, m, next);
    PrependCall(TransitionLoop(tree, m2, d, our).trace, m.trace, m2.trace, Entry(next),
                Entries(Reverse(Below(tree, d, next))), Entries(Reverse(Below(tree, d, m.currentState))));
  }

  /** From a state on the destination's chain the loop only enters: every
      state between it and the destination, outermost first. */
  lemma {:induction false} LoopDescends<E>(tree: seq<State<E>>, m: Engine, d: int, our: nat)
    requires WellFormed(tree) && Fits(tree, m) && 0 <= d < |tree|
    requires 1 <= our <= MAX_RECURSION_COUNT && m.maxRecursionCount == our
    requires OnPath(tree, m.currentState, d)
    requires forall x :: x in Below(tree, d, m.currentState) ==> QuietEntry(tree, m, x)
    ensures var r := TransitionLoop(tree, m, d, our);
      && r.currentState == d
      && r.trace == m.trace + Entries(Reverse(Below(tree, d, m.currentState)))
      && r.maxRecursionCount == (if our == 1 then 0 else our)
    decreases d - m.currentState
  {
    var cur := m.currentState;
    if cur != d {
      FoundWhenOnPath(tree, d, cur);
      var next := BranchChild(tree, d, cur).value;
      QuietAfterEntry(tree, m, d, next);
      assert cur < next;
      LoopDescends(tree, Entered(tree, m, next), d, our);
      DescendsAfterEntry(tree, m, d, our, next);
    }
  }

  lemma ExitsCons(x: int, xs: seq<int>)
    ensures Exits([x] + xs) == [Exit(x)] + Exits(xs)
  {
  }

  /** A state off the destination's chain has the same common ancestor with
      it as its parent has, and lies strictly below it. */
  lemma OffPathAncestor<E>(tree: seq<State<E>>, cur: int, d: int)
    requires WellFormed(tree) && IsRef(tree, cur) && 0 <= d < |tree| && !OnPath(tree, cur, d)
    ensures cur != Null && cur != d
    ensures var p := tree[cur].parent;
      && CommonAncestor(tree, cur, d) == CommonAncestor(tree, p, d)
      && Below(tree, cur, CommonAncestor(tree, cur, d)) == [cur] + Below(tree, p, CommonAncestor(tree, p, d))
      && (p == d ==> CommonAncestor(tree, p, d) == d)
  {
    assert d in Chain(tree, d);
  }

  /** From a state off the destination's chain the reference calls begin
      with its exit, followed by those from its parent. */
  lemma ReferenceFromOffPath<E>(tree: seq<State<E>>, cur: int, d: int)
    requires WellFormed(tree) && IsRef(tree, cur) && 0 <= d < |tree| && !OnPath(tree, cur, d)
    ensures cur != Null && cur != d
    ensures var p := tree[cur].parent;
      && CommonAncestor(tree, cur, d) == CommonAncestor(tree, p, d)
      && Below(tree, cur, CommonAncestor(tree, cur, d)) == [cur] + Below(tree, p, CommonAncestor(tree, p, d))
      && ReferenceCalls(tree, cur, d) == [Exit(cur)] + (if p == d then [] else ReferenceCalls(tree, p, d))
  {
    OffPathAncestor(tree, cur, d);
    var p := tree[cur].parent;
    var l := CommonAncestor(tree, cur, d);
    var exits := Exits(Below(tree, p, l));
    var tail := Entries(Reverse(Below(tree, d, l)));
    ExitsCons(cur, Below(tree, p, l));
    ReferenceCallsSplit(tree, cur, d);
    ConsAssoc(Exit(cur), exits, tail, ReferenceCalls(tree, cur, d));
    if p == d {
      assert Below(tree, p, l) == [] && Below(tree, d, l) == [];
      assert exits == [] && tail == [];
    } else {
      ReferenceCallsSplit(tree, p, d);
    }
  }

  lemma ConsAssoc(x: Call, a: seq<Call>, b: seq<Call>, whole: seq<Call>)
    requires whole == ([x] + a) + b
    ensures whole == [x] + (a + b)
  {
  }

  /** After the exit of a state off the destination's chain, the rest of the
      transition is still quiet. */
  lemma QuietAfterExit<E>(tree: seq<State<E>>, m: Engine, d: int)
    requires WellFormed(tree) && Fits(tree, m) && 0 <= d < |tree|
    requires !OnPath(tree, m.currentState, d) && Quiet(tree, m, m.currentState, d)
    requires m.currentState != Null && tree[m.currentState].parent != d
    ensures Quiet(tree, Exited(tree, m, m.currentState), tree[m.currentState].parent, d)
  {
    var cur := m.currentState;
    var p := tree[cur].parent;
    var m2 := Exited(tree, m, cur);
    OffPathAncestor(tree, cur, d);
    var l := CommonAncestor(tree, cur, d);
    forall x | x in Below(tree, p, l)
      ensures QuietExit(tree, m2, x)
    {
      assert x in Below(tree, cur, l) && x != cur;
    }
    forall x | x in Below(tree, d, l)
      ensures QuietEntry(tree, m2, x)
    {
      assert QuietEntry(tree, m, x);
    }
  }

  /** From a state on the destination's chain the reference calls are the
      entries down to it, which the loop makes. */
  lemma AscendsFromChain<E>(tree: seq<State<E>>, m: Engine, d: int, our: nat)
    requires WellFormed(tree) && Fits(tree, m) && 0 <= d < |tree|
    requires 1 <= our <= MAX_RECURSION_COUNT && m.maxRecursionCount == our
    requires OnPath(tree, m.currentState, d)
    requires m.currentState != d && Quiet(tree, m, m.currentState, d)
    ensures var r := TransitionLoop(tree, m, d, our);
      && r.currentState == d
      && r.trace == m.trace + ReferenceCalls(tree, m.currentState, d)
      && r.maxRecursionCount == (if our == 1 then 0 else our)
  {
    var cur := m.currentState;
    assert CommonAncestor(tree, cur, d) == cur;
    assert Below(tree, cur, cur) == [] && Exits([]) == [];
    assert ReferenceCalls(tree, cur, d) == Entries(Reverse(Below(tree, d, cur)));
    LoopDescends(tree, m, d, our);
  }

  /** The exit of a state off the destination's chain: one loop iteration,
      the first of the reference calls, and the rest is still quiet. */
  lemma ExitOffPath<E>(tree: seq<State<E>>, m: Engine, d: int, our: nat)
    requires WellFormed(tree) && Fits(tree, m) && 0 <= d < |tree|
    requires 1 <= our <= MAX_RECURSION_COUNT && m.maxRecursionCount == our
    requires !OnPath(tree, m.currentState, d) && Quiet(tree, m, m.currentState, d)
    ensures m.currentState != Null && m.currentState != d
    ensures var cur := m.currentState;
      var p := tree[cur].parent;
      var m2 := Exited(tree, m, cur);
      && TransitionLoop(tree, m, d, our) == TransitionLoop(tree, m2, d, our)
      && m2.currentState == p && m2.maxRecursionCount == our
      && m2.trace == m.trace + [Exit(cur)]
      && ReferenceCalls(tree, cur, d) == [Exit(cur)] + (if p == d then [] else ReferenceCalls(tree, p, d))
      && (p != d ==> Quiet(tree, m2, p, d))
  {
    var cur := m.currentState;
    NotFoundWhenOffPath(tree, d, cur);
    ReferenceFromOffPath(tree, cur, d);
    assert QuietExit(tree, m, cur);
    ExitStep(tree, m, d, our);
    if tree[cur].parent != d {
      QuietAfterExit(tree, m, d);
    }
  }

  /** The loop from a state off the destination's chain makes its exit and
      then what the loop from its parent makes. */
  lemma PrependCall(r: seq<Call>, t0: seq<Call>, t1: seq<Call>, x: Call, rest: seq<Call>, whole: seq<Call>)
    requires r == t1 + rest && t1 == t0 + [x] && whole == [x] + rest
    ensures r == t0 + whole
  {
  }

  lemma AscendsAfterExit<E>(tree: seq<State<E>>, m: Engine, d: int, our: nat)
    requires WellFormed(tree) && Fits(tree, m) && 0 <= d < |tree|
    requires 1 <= our <= MAX_RECURSION_COUNT && m.maxRecursionCount == our
    requires 0 <= m.currentState && m.currentState != d
    requires var cur := m.currentState;
      var m2 := Exited(tree, m, cur);
      && TransitionLoop(tree, m, d, our) == TransitionLoop(tree, m2, d, our)
      && ReferenceCalls(tree, cur, d) == [Exit(cur)] + ReferenceCalls(tree, tree[cur].parent, d)
      && var r := TransitionLoop(tree, m2, d, our);
      && r.currentState == d
      && r.trace == m2.trace + ReferenceCalls(tree, m2.currentState, d)
      && r.maxRecursionCount == (if our == 1 then 0 else our)
    ensures var r := TransitionLoop(tree, m, d, our);
      && r.currentState == d
      && r.trace == m.trace + ReferenceCalls(tree, m.currentState, d)
      && r.maxRecursionCount == (if our == 1 then 0 else our)
  {
    var cur := m.currentState;
    var m2 := Exited(tree, m, cur);
    PrependCall(TransitionLoop(tree, m2, d, our).trace, m.trace, m2.trace, Exit(cur),
                ReferenceCalls(tree, tree[cur].parent, d), ReferenceCalls(tree, cur, d));
  }

  /** From any state the loop exits up to the common ancestor, innermost
      first, and then enters down to the destination, outermost first. */
  lemma {:induction false} LoopAscends<E>(tree: seq<State<E>>, m: Engine, d: int, our: nat)
    requires WellFormed(tree) && Fits(tree, m) && 0 <= d < |tree|
    requires 1 <= our <= MAX_RECURSION_COUNT && m.maxRecursionCount == our
    requires m.currentState != d && Quiet(tree, m, m.currentState, d)
    ensures var r := TransitionLoop(tree, m, d, our);
      && r.currentState == d
      && r.trace == m.trace + ReferenceCalls(tree, m.currentState, d)
      && r.maxRecursionCount == (if our == 1 then 0 else our)
    decreases m.currentState + 1
  {
    var cur := m.currentState;
    if OnPath(tree, cur, d) {
      AscendsFromChain(tree, m, d, our);
    } else {
      ExitOffPath(tree, m, d, our);
      var m2 := Exited(tree, m, cur);
      var p := tree[cur].parent;
      if p != d {
        assert p < cur;
        LoopAscends(tree, m2, d, our);
        AscendsAfterExit(tree, m, d, our);
      }
    }
  }

  // ----- transitionTo -----

  /** A transition from a state other than its destination, issued when no
      entry or exit callback is running, starts the loop from the current
      state at once. */
  lemma StartLoop<E>(tree: seq<State<E>>, m: Engine, d: int)
    requires WellFormed(tree) && Fits(tree, m) && 0 <= d < |tree|
    requires m.maxRecursionCount < MAX_RECURSION_COUNT && Unmarked(m) && m.currentState != d
    ensures var our := m.maxRecursionCount + 1;
      Transition(tree, m, d) == TransitionLoop(tree, m.(transitionToCalled := true, maxRecursionCount := our), d, our)
  {
  }

  /** A call of `transitionTo` past the recursion bound returns at once: it
      changes the flag and the counter and nothing else. */
  lemma TransitionPastBound<E>(tree: seq<State<E>>, m: Engine, d: int)
    requires WellFormed(tree) && Fits(tree, m) && 0 <= d < |tree|
    requires m.maxRecursionCount >= MAX_RECURSION_COUNT
    ensures Transition(tree, m, d) ==
      m.(transitionToCalled := true, maxRecursionCount := m.maxRecursionCount + 1)
  {
  }

  /** Reconciling the markers moves the current state and clears markers,
      and does not look at or change anything else. */
  lemma ReconcileFrame<E>(tree: seq<State<E>>, m: Engine, d: int, our: nat)
    requires WellFormed(tree) && Fits(tree, m) && 0 <= d < |tree|
    ensures var m1 := m.(transitionToCalled := true, maxRecursionCount := our);
      var r := Reconcile(tree, m1, d);
      && r.currentState == ResumeFrom(tree, m, d)
      && r.entryRuns == m.entryRuns && r.exitRuns == m.exitRuns && r.trace == m.trace
      && r.maxRecursionCount == our
      && r.calledEntryState == Reconcile(tree, m, d).calledEntryState
      && r.calledExitState == Reconcile(tree, m, d).calledExitState
  {
  }

  /** The loop of a transition to the state it resumes from: exit it, then
      enter it again. */
  lemma ReenterLoop<E>(tree: seq<State<E>>, m: Engine, d: int, our: nat)
    requires WellFormed(tree) && Fits(tree, m) && 0 <= d < |tree|
    requires 1 <= our <= MAX_RECURSION_COUNT && m.maxRecursionCount == our
    requires m.currentState == d && QuietExit(tree, m, d) && QuietEntry(tree, m, d)
    ensures var m3 := CallExit(tree, m, d);
      && m3.maxRecursionCount == our
      && var r := TransitionLoop(tree, m3.(currentState := tree[d].parent), d, our);
      && r.currentState == d
      && r.trace == m.trace + [Exit(d), Entry(d)]
      && r.maxRecursionCount == (if our == 1 then 0 else our)
  {
    QuietCallExit(tree, m, d);
    var m3 := CallExit(tree, m, d);
    var p := tree[d].parent;
    var m4 := m3.(currentState := p);
    ParentOnPath(tree, d, d);
    assert Below(tree, d, p) == [d];
    LoopDescends(tree, m4, d, our);
  }

  /** The part of a transition after the markers are reconciled, when none
      of its callbacks transitions. */
  lemma QuietResume<E>(tree: seq<State<E>>, m: Engine, d: int, our: nat)
    requires WellFormed(tree) && Fits(tree, m) && 0 <= d < |tree|
    requires 1 <= our <= MAX_RECURSION_COUNT && m.maxRecursionCount == our
    requires Quiet(tree, m, m.currentState, d)
    ensures var r := Resume(tree, m, d, our);
      && r.currentState == d
      && r.trace == m.trace + ReferenceCalls(tree, m.currentState, d)
      && r.maxRecursionCount == (if our == 1 then 0 else our)
  {
    if m.currentState == d {
      ReenterLoop(tree, m, d, our);
    } else {
      LoopAscends(tree, m, d, our);
    }
  }

  /** A transition none of whose callbacks transitions: it resumes from the
      reconciled state, makes exactly the calls of `ReferenceCalls`, ends in
      `d`, and leaves the counter at 0 if it was the outermost call (one
      above its old value otherwise, which stops the enclosing call). */
  lemma QuietTransition<E>(tree: seq<State<E>>, m: Engine, d: int)
    requires WellFormed(tree) && Fits(tree, m) && 0 <= d < |tree|
    requires m.maxRecursionCount < MAX_RECURSION_COUNT
    requires Quiet(tree, m, ResumeFrom(tree, m, d), d)
    ensures var r := Transition(tree, m, d);
      && r.currentState == d
      && r.trace == m.trace + ReferenceCalls(tree, ResumeFrom(tree, m, d), d)
      && r.maxRecursionCount == (if m.maxRecursionCount == 0 then 0 else m.maxRecursionCount + 1)
      && KeepsMarkers(Reconcile(tree, m, d), r)
  {
    var our := m.maxRecursionCount + 1;
    var m1 := m.(transitionToCalled := true, maxRecursionCount := our);
    var m2 := Reconcile(tree, m1, d);
    var c := ResumeFrom(tree, m, d);
    TransitionResumes(tree, m, d);
    ReconcileFrame(tree, m, d, our);
    QuietSameRuns(tree, m, m2, c, d);
    QuietResume(tree, m2, d, our);
  }

  /** Below the recursion bound, `transitionTo` raises the counter,
      reconciles the markers and resumes. */
  lemma TransitionResumes<E>(tree: seq<State<E>>, m: Engine, d: int)
    requires WellFormed(tree) && Fits(tree, m) && 0 <= d < |tree|
    requires m.maxRecursionCount < MAX_RECURSION_COUNT
    ensures var our := m.maxRecursionCount + 1;
      Transition(tree, m, d) ==
        Resume(tree, Reconcile(tree, m.(transitionToCalled := true, maxRecursionCount := our), d), d, our)
  {
  }

  /** Whether a transition is quiet depends only on how often each callback
      has run. */
  lemma QuietSameRuns<E>(tree: seq<State<E>>, m: Engine, m': Engine, c: int, d: int)
    requires WellFormed(tree) && Fits(tree, m) && Fits(tree, m') && IsRef(tree, c) && 0 <= d < |tree|
    requires m'.entryRuns == m.entryRuns && m'.exitRuns == m.exitRuns
    requires Quiet(tree, m, c, d)
    ensures Quiet(tree, m', c, d)
  {
  }

  /** Neither marker is set: no entry or exit callback is running. */
  predicate Unmarked(m: Engine) {
    m.calledEntryState == Null && m.calledExitState == Null
  }

  /** An engine between transitions: no transition running, no marker set. */
  predicate Idle(m: Engine) {
    m.maxRecursionCount == 0 && Unmarked(m)
  }

  /** Whatever its callbacks do, a top-level transition leaves the machine
      idle: the counter is back at 0 and both markers are clear. */
  lemma TransitionKeepsIdle<E>(tree: seq<State<E>>, m: Engine, d: int)
    requires WellFormed(tree) && Fits(tree, m) && 0 <= d < |tree| && Idle(m)
    ensures Idle(Transition(tree, m, d))
  {
  }

  /** Whatever its callbacks do, `handleEvent` on an idle machine leaves it
      idle. */
  lemma DispatchKeepsIdle<E>(tree: seq<State<E>>, m: Engine, e: E)
    requires WellFormed(tree) && Fits(tree, m) && Idle(m)
    ensures Idle(Dispatch(tree, m, e))
  {
  }

  /** A top-level transition from the current state `c` to `d`: the calls of
      `ReferenceCalls(c, d)` in order, `d` current, and the machine idle
      again. */
  lemma OutermostTransition<E>(tree: seq<State<E>>, m: Engine, d: int)
    requires WellFormed(tree) && Fits(tree, m) && 0 <= d < |tree| && Idle(m)
    requires Quiet(tree, m, m.currentState, d)
    ensures var r := Transition(tree, m, d);
      && r.currentState == d && Idle(r)
      && r.trace == m.trace + ReferenceCalls(tree, m.currentState, d)
  {
    assert ResumeFrom(tree, m, d) == m.currentState;
    QuietTransition(tree, m, d);
  }

  /** The initial transition enters the whole chain of `d`, its root first,
      and exits nothing. */
  lemma InitialTransition<E>(tree: seq<State<E>>, d: int)
    requires WellFormed(tree) && 0 <= d < |tree|
    requires forall x :: x in Chain(tree, d) ==> !ActionAt(tree[x].entry, 0).TransitionTo?
    ensures var r := Transition(tree, Initial(|tree|), d);
      && r.currentState == d && Idle(r)
      && r.trace == Entries(Reverse(Chain(tree, d)))
      && tree[r.trace[0].state].parent == Null
      && forall k :: 0 <= k < |r.trace| ==> r.trace[k].Entry?
  {
    var m := Initial(|tree|);
    BelowNullIsChain(tree, d);
    assert CommonAncestor(tree, Null, d) == Null;
    OutermostTransition(tree, m, d);
    ChainLinks(tree, d);
  }

  /** A top-level transition from no state to a root whose entry does not
      transition: the root's entry callback is the only one run. */
  lemma EnterRoot<E>(tree: seq<State<E>>, m: Engine, d: int)
    requires WellFormed(tree) && Fits(tree, m) && 0 <= d < |tree| && Idle(m)
    requires m.currentState == Null && tree[d].parent == Null && QuietEntry(tree, m, d)
    ensures Transition(tree, m, d) == Entered(tree, m.(transitionToCalled := true), d)
  {
    var m1 := m.(transitionToCalled := true, maxRecursionCount := 1);
    StartLoop(tree, m, d);
    assert BranchChild(tree, d, Null) == Some(d);
    EnterStep(tree, m1, d, 1, d);
    var m2 := Entered(tree, m1, d);
    assert TransitionLoop(tree, m2, d, 1) == Finish(m2, 1);
  }

  /** A transition to the current state exits it once and enters it once. */
  lemma SelfTransition<E>(tree: seq<State<E>>, m: Engine, d: int)
    requires WellFormed(tree) && Fits(tree, m) && Idle(m) && m.currentState == d && 0 <= d < |tree|
    requires QuietExit(tree, m, d) && QuietEntry(tree, m, d)
    ensures var r := Transition(tree, m, d);
      && r.currentState == d && Idle(r)
      && r.trace == m.trace + [Exit(d), Entry(d)]
  {
    OutermostTransition(tree, m, d);
  }

  /** A transition made by the entry callback of `s` to `s` or to one of its
      descendants counts `s` as entered: it continues from `s` (exiting and
      re-entering `s` only if `s` is the destination) and clears the entry
      marker. */
  lemma EntryRedirect<E>(tree: seq<State<E>>, m: Engine, s: int, d: int)
    requires WellFormed(tree) && Fits(tree, m) && 0 <= d < |tree|
    requires 0 < m.maxRecursionCount < MAX_RECURSION_COUNT
    requires m.calledEntryState == s && s != Null && s in Chain(tree, d) && m.calledExitState == Null
    requires Quiet(tree, m, s, d)
    ensures var r := Transition(tree, m, d);
      && r.currentState == d
      && r.trace == m.trace + ReferenceCalls(tree, s, d)
      && (s != d ==> Entry(s) !in r.trace[|m.trace|..])
      && r.calledEntryState == Null && r.calledExitState == Null
      && r.maxRecursionCount == m.maxRecursionCount + 1
  {
    assert ResumeFrom(tree, m, d) == s && Unmarked(Reconcile(tree, m, d));
    QuietTransition(tree, m, d);
    var r := Transition(tree, m, d);
    assert r.trace[|m.trace|..] == ReferenceCalls(tree, s, d);
    if s != d {
      ReferenceEntrySet(tree, s, d);
      assert s in Chain(tree, s);
    }
  }

  /** A transition made by the exit callback of `s` to a state that is not
      `s` or below it counts `s` as exited: it continues from the parent of
      `s`, so `s` is not exited again, and clears the exit marker. */
  lemma ExitRedirect<E>(tree: seq<State<E>>, m: Engine, s: int, d: int)
    requires WellFormed(tree) && Fits(tree, m) && 0 <= d < |tree|
    requires 0 < m.maxRecursionCount < MAX_RECURSION_COUNT
    requires m.calledExitState == s && s != Null && s !in Chain(tree, d) && m.calledEntryState == Null
    requires Quiet(tree, m, tree[s].parent, d)
    ensures var r := Transition(tree, m, d);
      && r.currentState == d
      && r.trace == m.trace + ReferenceCalls(tree, tree[s].parent, d)
      && Exit(s) !in r.trace[|m.trace|..]
      && r.calledEntryState == Null && r.calledExitState == Null
      && r.maxRecursionCount == m.maxRecursionCount + 1
  {
    var p := tree[s].parent;
    assert ResumeFrom(tree, m, d) == p && Unmarked(Reconcile(tree, m, d));
    QuietTransition(tree, m, d);
    var r := Transition(tree, m, d);
    assert r.trace[|m.trace|..] == ReferenceCalls(tree, p, d);
    if p == d {
      assert s != d;
    } else {
      ReferenceExitSet(tree, p, d);
      assert s !in Chain(tree, p);
    }
  }

  // ----- handleEvent -----

  lemma EventsCons(s: int, xs: seq<int>)
    ensures Events([s] + xs) == [Event(s)] + Events(xs)
  {
  }

  /** An event no callback on the chain acts on is offered to every state of
      the chain, innermost first, and changes nothing else. */
  lemma {:induction false} BubbleUnhandled<E>(tree: seq<State<E>>, m: Engine, s: int, e: E)
    requires WellFormed(tree) && Fits(tree, m) && IsRef(tree, s)
    requires !m.transitionToCalled && !m.eventHandledCalled
    requires forall x :: x in Chain(tree, s) ==> ReactionTo(tree[x].event, e) == Nop
    ensures Bubble(tree, m, s, e) == m.(trace := m.trace + Events(Chain(tree, s)))
    decreases s + 1
  {
    if s != Null {
      var p := tree[s].parent;
      var m1 := m.(trace := m.trace + [Event(s)]);
      assert Chain(tree, s) == [s] + Chain(tree, p);
      BubblePasses(tree, m, s, e);
      BubbleUnhandled(tree, m1, p, e);
      EventsCons(s, Chain(tree, p));
      PrependCall(m1.trace + Events(Chain(tree, p)), m.trace, m1.trace, Event(s),
                  Events(Chain(tree, p)), Events(Chain(tree, s)));
    }
  }

  /** `handleEvent` on an event nobody acts on: every state from the current
      one up to its root sees it, and only the flags and the trace change. */
  lemma UnhandledEvent<E>(tree: seq<State<E>>, m: Engine, e: E)
    requires WellFormed(tree) && Fits(tree, m)
    requires forall x :: x in Chain(tree, m.currentState) ==> ReactionTo(tree[x].event, e) == Nop
    ensures Dispatch(tree, m, e) == m.(
      transitionToCalled := false, eventHandledCalled := false,
      trace := m.trace + Events(Chain(tree, m.currentState)))
  {
    BubbleUnhandled(tree, m.(transitionToCalled := false, eventHandledCalled := false), m.currentState, e);
  }

  /** The state whose callback acts on the event is the last to see it. */
  lemma BubbleStopsHere<E>(tree: seq<State<E>>, m: Engine, s: int, e: E)
    requires WellFormed(tree) && Fits(tree, m) && 0 <= s < |tree|
    requires !m.transitionToCalled && !m.eventHandledCalled
    requires ReactionTo(tree[s].event, e) != Nop
    ensures Bubble(tree, m, s, e) ==
      Perform(tree, m.(trace := m.trace + [Event(s)]), ReactionTo(tree[s].event, e))
  {
    var m1 := CallEvent(tree, m, s, e);
    assert m1.transitionToCalled || m1.eventHandledCalled;
  }

  /** A state whose callback ignores the event passes it to its parent. */
  lemma BubblePasses<E>(tree: seq<State<E>>, m: Engine, s: int, e: E)
    requires WellFormed(tree) && Fits(tree, m) && 0 <= s < |tree|
    requires !m.transitionToCalled && !m.eventHandledCalled
    requires ReactionTo(tree[s].event, e) == Nop
    ensures Bubble(tree, m, s, e) == Bubble(tree, m.(trace := m.trace + [Event(s)]), tree[s].parent, e)
  {
    assert CallEvent(tree, m, s, e) == m.(trace := m.trace + [Event(s)]);
  }

  /** A state below `t` that ignores the event sees it, and then bubbling
      goes on from its parent. */
  lemma BubbleStopsAfter<E>(tree: seq<State<E>>, m: Engine, s: int, e: E, t: int)
    requires WellFormed(tree) && Fits(tree, m) && 0 <= s < |tree| && t in Chain(tree, s) && s != t
    requires !m.transitionToCalled && !m.eventHandledCalled
    requires forall x :: x in Below(tree, s, t) ==> ReactionTo(tree[x].event, e) == Nop
    requires t in Chain(tree, tree[s].parent)
    requires var m1 := m.(trace := m.trace + [Event(s)]);
      Bubble(tree, m1, tree[s].parent, e) ==
        Perform(tree, m1.(trace := m1.trace + Events(Below(tree, tree[s].parent, t) + [t])), ReactionTo(tree[t].event, e))
    ensures Bubble(tree, m, s, e) ==
      Perform(tree, m.(trace := m.trace + Events(Below(tree, s, t) + [t])), ReactionTo(tree[t].event, e))
  {
    var p := tree[s].parent;
    var m1 := m.(trace := m.trace + [Event(s)]);
    EventsBelowStep(tree, s, t);
    BubblePasses(tree, m, s, e);
    PrependCall(m1.trace + Events(Below(tree, p, t) + [t]), m.trace, m1.trace, Event(s),
                Events(Below(tree, p, t) + [t]), Events(Below(tree, s, t) + [t]));
  }

  /** The events offered from `s` up to `t` are the one offered to `s`,
      then those offered from its parent up to `t`. */
  lemma EventsBelowStep<E>(tree: seq<State<E>>, s: int, t: int)
    requires WellFormed(tree) && 0 <= s < |tree| && t in Chain(tree, s) && s != t
    requires t in Chain(tree, tree[s].parent)
    ensures s in Below(tree, s, t)
    ensures Events(Below(tree, s, t) + [t]) == [Event(s)] + Events(Below(tree, tree[s].parent, t) + [t])
  {
    var p := tree[s].parent;
    assert Below(tree, s, t) == [s] + Below(tree, p, t);
    assert [s] + (Below(tree, p, t) + [t]) == Below(tree, s, t) + [t];
    EventsCons(s, Below(tree, p, t) + [t]);
  }

  /** Bubbling stops at the first state `t` whose callback acts on the
      event: the states from `s` up to `t` see the event, innermost first,
      what the callback of `t` does is the last thing that happens, and no
      state above `t` sees the event. */
  lemma {:induction false} BubbleStops<E>(tree: seq<State<E>>, m: Engine, s: int, e: E, t: int)
    requires WellFormed(tree) && Fits(tree, m) && IsRef(tree, s) && t in Chain(tree, s)
    requires !m.transitionToCalled && !m.eventHandledCalled
    requires forall x :: x in Below(tree, s, t) ==> ReactionTo(tree[x].event, e) == Nop
    requires ReactionTo(tree[t].event, e) != Nop
    ensures Bubble(tree, m, s, e) ==
      Perform(tree, m.(trace := m.trace + Events(Below(tree, s, t) + [t])), ReactionTo(tree[t].event, e))
    decreases s + 1
  {
    if s == t {
      assert Below(tree, s, t) + [t] == [s];
      assert Events([s]) == [Event(s)];
      BubbleStopsHere(tree, m, s, e);
    } else {
      var p := tree[s].parent;
      var m1 := m.(trace := m.trace + [Event(s)]);
      assert Below(tree, s, t) == [s] + Below(tree, p, t);
      assert Chain(tree, s) == [s] + Chain(tree, p);
      assert t in Chain(tree, p);
      BubbleStops(tree, m1, p, e, t);
      BubbleStopsAfter(tree, m, s, e, t);
    }
  }

  /** `handleEvent` delivers the event from the current state upwards and
      stops at the first state `t` whose callback acts on it. */
  lemma FirstConsumer<E>(tree: seq<State<E>>, m: Engine, e: E, t: int)
    requires WellFormed(tree) && Fits(tree, m) && t in Chain(tree, m.currentState)
    requires forall x :: x in Below(tree, m.currentState, t) ==> ReactionTo(tree[x].event, e) == Nop
    requires ReactionTo(tree[t].event, e) != Nop
    ensures Dispatch(tree, m, e) ==
      Perform(tree, m.(transitionToCalled := false, eventHandledCalled := false,
                       trace := m.trace + Events(Below(tree, m.currentState, t) + [t])),
              ReactionTo(tree[t].event, e))
  {
    BubbleStops(tree, m.(transitionToCalled := false, eventHandledCalled := false), m.currentState, e, t);
  }
}
