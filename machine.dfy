/**
  The `StateMachine` class of NinjaHSM: the fields that `handleEvent` and
  `transitionTo` update in place, and those operations as methods with the
  loops of the original.  Each method is proved to compute the function of
  module HsmEngine that specifies it, on the snapshot `Snapshot()` of its
  fields.

  The machine holds the forest `tree` it was given; the callbacks it invokes
  are the scripted ones of HsmTree, and `entryRuns`/`exitRuns` count how often
  each scripted entry and exit callback has run (state the application's
  callbacks keep).  `trace` records every callback invocation.
*/
module HsmMachine {
  import opened HsmTree
  import opened HsmEngine

  class StateMachine<E(==)> {
    const tree: seq<State<E>>

    var currentState: int
    var transitionToCalled: bool
    var eventHandledCalled: bool
    /** Set to the state whose entry callback is running. */
    var calledEntryState: int
    /** Set to the state whose exit callback is running. */
    var calledExitState: int
    /** How many nested `TransitionTo` calls the current transition has made. */
    var maxRecursionCount: nat

    var entryRuns: seq<nat>
    var exitRuns: seq<nat>
    ghost var trace: seq<Call>

    ghost function Snapshot(): Engine
      reads this
    {
      Engine(currentState, transitionToCalled, eventHandledCalled, calledEntryState,
             calledExitState, maxRecursionCount, entryRuns, exitRuns, trace)
    }

    ghost predicate Valid()
      reads this
    {
      WellFormed(tree) && Fits(tree, Snapshot())
    }

    /** A new machine over the forest `tree`, in no state yet. */
    constructor (tree: seq<State<E>>)
      requires WellFormed(tree)
      ensures Valid() && this.tree == tree
      ensures Snapshot() == Initial(|tree|)
    {
      this.tree := tree;
      currentState := Null;
      transitionToCalled := false;
      eventHandledCalled := false;
      calledEntryState := Null;
      calledExitState := Null;
      maxRecursionCount := 0;
      entryRuns := seq(|tree|, _ => 0);
      exitRuns := seq(|tree|, _ => 0);
      trace := [];
    }

    /** The current state (Null before the initial transition). */
    method GetCurrentState() returns (s: int)
      requires Valid()
      ensures s == Snapshot().currentState && IsRef(tree, s)
    {
      s := currentState;
    }

    /** The transition to the first state, before any event is handled. */
    method InitialTransitionTo(d: int)
      requires Valid() && 0 <= d < |tree|
      modifies this
      ensures Valid() && Snapshot() == Transition(tree, old(Snapshot()), d)
    {
      TransitionTo(d);
    }

    /** Called from an event callback: the event was handled, stop bubbling. */
    method EventHandled()
      requires Valid()
      modifies this
      ensures Valid() && Snapshot() == old(Snapshot()).(eventHandledCalled := true)
    {
      eventHandledCalled := true;
    }

    /** Offer event `e` to the current state, then to its ancestors, until a
        callback transitions or marks the event handled. */
    method HandleEvent(e: E)
      requires Valid()
      modifies this
      ensures Valid() && Snapshot() == Dispatch(tree, old(Snapshot()), e)
    {
      transitionToCalled := false;
      eventHandledCalled := false;
      var stateToHandleEvent := currentState;
      while stateToHandleEvent != Null
        invariant Valid() && IsRef(tree, stateToHandleEvent)
        invariant Bubble(tree, Snapshot(), stateToHandleEvent, e) == Dispatch(tree, old(Snapshot()), e)
        decreases stateToHandleEvent + 1
      {
        CallEvent(stateToHandleEvent, e);
        if transitionToCalled || eventHandledCalled {
          break;
        }
        stateToHandleEvent := tree[stateToHandleEvent].parent;
      }
    }

    /** Whether `parent` is `child` or one of its ancestors; reads only. */
    method IsChildOf(parent: int, child: int) returns (b: bool)
      requires Valid() && IsRef(tree, parent) && IsRef(tree, child)
      ensures b <==> parent in Chain(tree, child)
    {
      var state := child;
      while state != Null
        invariant IsRef(tree, state)
        invariant (parent in Chain(tree, child)) == (parent in Chain(tree, state))
        decreases state + 1
      {
        if state == parent {
          return true;
        }
        state := tree[state].parent;
      }
      return false;
    }

    /** The search of the transition loop: walk up from `d` to the state
        whose parent is `cur`. */
    method SearchDestinationBranch(d: int, cur: int) returns (found: bool, next: int)
      requires Valid() && 0 <= d < |tree| && IsRef(tree, cur)
      ensures found == BranchChild(tree, d, cur).Some?
      ensures found ==> next == BranchChild(tree, d, cur).value
    {
      var stateInDestinationBranch := d;
      found := false;
      while stateInDestinationBranch != Null
        invariant IsRef(tree, stateInDestinationBranch)
        invariant BranchChild(tree, stateInDestinationBranch, cur) == BranchChild(tree, d, cur)
        decreases stateInDestinationBranch + 1
      {
        if tree[stateInDestinationBranch].parent == cur {
          found := true;
          break;
        }
        stateInDestinationBranch := tree[stateInDestinationBranch].parent;
      }
      next := stateInDestinationBranch;
    }

    /** Move to state `d`, one exit or one entry at a time. */
    method TransitionTo(d: int)
      requires Valid() && 0 <= d < |tree|
      modifies this
      ensures Valid() && Snapshot() == Transition(tree, old(Snapshot()), d)
      decreases Budget(maxRecursionCount), 1
    {
      transitionToCalled := true;
      maxRecursionCount := maxRecursionCount + 1;
      if maxRecursionCount > MAX_RECURSION_COUNT {
        return;
      }
      var ourRecursionCount := maxRecursionCount;
      ReconcileMarkers(d);
      Resume(d, ourRecursionCount);
    }

    /** The rest of `TransitionTo` once the markers are reconciled: exit the
        current state first if it is the destination, walk to the
        destination, and at END reset the counter if this is the outermost
        invocation. */
    method Resume(d: int, ourRecursionCount: nat)
      requires Valid() && 0 <= d < |tree|
      requires 1 <= ourRecursionCount <= MAX_RECURSION_COUNT
      requires maxRecursionCount == ourRecursionCount
      modifies this
      ensures Valid() && Snapshot() == HsmEngine.Resume(tree, old(Snapshot()), d, ourRecursionCount)
      decreases Budget(ourRecursionCount), 7
    {
      label End: {
        if currentState == d {
          CallExit(currentState);
          if ourRecursionCount != maxRecursionCount {
            break End;
          }
          currentState := tree[currentState].parent;
        }
        WalkTo(d, ourRecursionCount);
      }
      if ourRecursionCount == 1 {
        maxRecursionCount := 0;
      }
    }

    /** The start of `TransitionTo` inside a callback: resume from the state
        whose entry is running if it is `d` or an ancestor of `d`, and from the
        parent of the state whose exit is running if that state is not. */
    method ReconcileMarkers(d: int)
      requires Valid() && 0 <= d < |tree|
      modifies this
      ensures Valid() && Snapshot() == Reconcile(tree, old(Snapshot()), d)
    {
      var entryIsAncestor := false;
      if calledEntryState != Null {
        entryIsAncestor := IsChildOf(calledEntryState, d);
      }
      if entryIsAncestor {
        currentState := calledEntryState;
        calledEntryState := Null;
      }
      var exitIsAncestor := true;
      if calledExitState != Null {
        exitIsAncestor := IsChildOf(calledExitState, d);
      }
      if !exitIsAncestor {
        currentState := tree[calledExitState].parent;
        calledExitState := Null;
      }
    }

    /** The loop of `TransitionTo`, until the current state is `d` or a
        callback made a nested transition.  `ourRecursionCount` is the counter
        value of the invocation running it; the counter reset at END is left
        to the caller. */
    method WalkTo(d: int, ourRecursionCount: nat)
      requires Valid() && 0 <= d < |tree|
      requires 1 <= ourRecursionCount <= MAX_RECURSION_COUNT
      requires maxRecursionCount == ourRecursionCount
      modifies this
      ensures Valid()
      ensures Finish(Snapshot(), ourRecursionCount) == TransitionLoop(tree, old(Snapshot()), d, ourRecursionCount)
      decreases Budget(ourRecursionCount), 6
    {
      ghost var goal := TransitionLoop(tree, Snapshot(), d, ourRecursionCount);
      while currentState != d
        invariant Valid() && maxRecursionCount == ourRecursionCount
        invariant TransitionLoop(tree, Snapshot(), d, ourRecursionCount) == goal
        decreases LoopRank(tree, currentState, d)
      {
        var nested := Step(d, ourRecursionCount);
        if nested {
          return;
        }
      }
    }

    /** One iteration of the transition loop: enter the next state on the way
        down to `d`, or exit the current state on the way up.  `nested` tells
        that the callback made a nested transition, which ends this one. */
    method Step(d: int, ourRecursionCount: nat) returns (nested: bool)
      requires Valid() && 0 <= d < |tree| && currentState != d
      requires 1 <= ourRecursionCount <= MAX_RECURSION_COUNT
      requires maxRecursionCount == ourRecursionCount
      modifies this
      ensures Valid()
      ensures nested <==> maxRecursionCount != ourRecursionCount
      ensures nested ==>
        Finish(Snapshot(), ourRecursionCount) == TransitionLoop(tree, old(Snapshot()), d, ourRecursionCount)
      ensures !nested ==>
        && TransitionLoop(tree, Snapshot(), d, ourRecursionCount) == TransitionLoop(tree, old(Snapshot()), d, ourRecursionCount)
        && LoopRank(tree, currentState, d) < LoopRank(tree, old(currentState), d)
      decreases Budget(ourRecursionCount), 5
    {
      var found, next := SearchDestinationBranch(d, currentState);
      if found {
        nested := EnterNext(d, ourRecursionCount, next);
      } else {
        OffPathWhenNotFound(tree, d, currentState);
        nested := ExitCurrent(d, ourRecursionCount);
      }
    }

    /** The loop iteration on the way down: mark and enter `next`, the state
        on `d`'s chain whose parent is the current state, and move to it
        unless its entry callback made a nested transition. */
    method EnterNext(d: int, ourRecursionCount: nat, next: int) returns (nested: bool)
      requires Valid() && 0 <= d < |tree| && currentState != d
      requires BranchChild(tree, d, currentState) == Some(next)
      requires 1 <= ourRecursionCount <= MAX_RECURSION_COUNT
      requires maxRecursionCount == ourRecursionCount
      modifies this
      ensures Valid()
      ensures nested <==> maxRecursionCount != ourRecursionCount
      ensures nested ==>
        Finish(Snapshot(), ourRecursionCount) == TransitionLoop(tree, old(Snapshot()), d, ourRecursionCount)
      ensures !nested ==>
        && TransitionLoop(tree, Snapshot(), d, ourRecursionCount) == TransitionLoop(tree, old(Snapshot()), d, ourRecursionCount)
        && currentState == next
      decreases Budget(ourRecursionCount), 4
    {
      calledEntryState := next;
      CallEntry(next);
      calledEntryState := Null;
      if ourRecursionCount != maxRecursionCount {
        return true;
      }
      currentState := next;
      return false;
    }

    /** The loop iteration on the way up: mark and exit the current state,
        which is off `d`'s chain, and move to its parent unless its exit
        callback made a nested transition. */
    method ExitCurrent(d: int, ourRecursionCount: nat) returns (nested: bool)
      requires Valid() && 0 <= d < |tree| && currentState != d
      requires BranchChild(tree, d, currentState).None? && !OnPath(tree, currentState, d)
      requires 1 <= ourRecursionCount <= MAX_RECURSION_COUNT
      requires maxRecursionCount == ourRecursionCount
      modifies this
      ensures Valid()
      ensures nested <==> maxRecursionCount != ourRecursionCount
      ensures nested ==>
        Finish(Snapshot(), ourRecursionCount) == TransitionLoop(tree, old(Snapshot()), d, ourRecursionCount)
      ensures !nested ==>
        && TransitionLoop(tree, Snapshot(), d, ourRecursionCount) == TransitionLoop(tree, old(Snapshot()), d, ourRecursionCount)
        && currentState == tree[old(currentState)].parent
      decreases Budget(ourRecursionCount), 4
    {
      calledExitState := currentState;
      CallExit(currentState);
      calledExitState := Null;
      if ourRecursionCount != maxRecursionCount {
        return true;
      }
      currentState := tree[currentState].parent;
      return false;
    }

    /** Runs the entry callback of state `s`. */
    method CallEntry(s: int)
      requires Valid() && 0 <= s < |tree|
      modifies this
      ensures Valid() && Snapshot() == HsmEngine.CallEntry(tree, old(Snapshot()), s)
      decreases Budget(maxRecursionCount), 3
    {
      var k := entryRuns[s];
      trace := trace + [Entry(s)];
      entryRuns := entryRuns[s := k + 1];
      Perform(ActionAt(tree[s].entry, k));
    }

    /** Runs the exit callback of state `s`. */
    method CallExit(s: int)
      requires Valid() && 0 <= s < |tree|
      modifies this
      ensures Valid() && Snapshot() == HsmEngine.CallExit(tree, old(Snapshot()), s)
      decreases Budget(maxRecursionCount), 3
    {
      var k := exitRuns[s];
      trace := trace + [Exit(s)];
      exitRuns := exitRuns[s := k + 1];
      Perform(ActionAt(tree[s].exit, k));
    }

    /** Runs the event callback of state `s` on event `e`. */
    method CallEvent(s: int, e: E)
      requires Valid() && 0 <= s < |tree|
      modifies this
      ensures Valid() && Snapshot() == HsmEngine.CallEvent(tree, old(Snapshot()), s, e)
    {
      trace := trace + [Event(s)];
      Perform(ReactionTo(tree[s].event, e));
    }

    /** What a callback does: its calls back into the machine. */
    method Perform(a: Action)
      requires Valid() && ValidAction(|tree|, a)
      modifies this
      ensures Valid() && Snapshot() == HsmEngine.Perform(tree, old(Snapshot()), a)
      decreases Budget(maxRecursionCount), 2
    {
      match a
      case Nop =>
      case MarkHandled => EventHandled();
      case TransitionTo(t) => TransitionTo(t);
    }
  }
}
