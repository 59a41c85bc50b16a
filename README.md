# NinjaHSM state machine core, modelled in Dafny

NinjaHSM is a hierarchical state machine for embedded C++. States form a
forest that is linked only by `parent` links (`State *`). A `StateMachine` owns the
current state and two operations:

- `handleEvent` offers an event to the current state, then to each of its
  ancestors in turn. It stops as soon as a callback calls `transitionTo` or
  `eventHandled`.
- `transitionTo` walks to a destination one step at a time. Each step either
  exits the current state and moves up, or enters the next state on the
  destination's parent chain and moves down.

Entry and exit callbacks may call `transitionTo` again. Such nested calls are
reconciled by two markers, `calledEntryState` and `calledExitState`, together
with a counter, `maxRecursionCount`, that is capped at `MAX_RECURSION_COUNT = 10`.

The project has six modules:

- `HsmTree` (`tree.dfy`): the `State` record and the forest of states. A
  state is named by its index and `Null` (-1) stands for `nullptr`. A forest
  is well formed when every parent index is smaller than its child's, so the
  links cannot form a cycle. Callbacks are foreign code, so they are modelled
  as data. An entry or exit callback is a `Script` that performs one `Action`
  on each of its invocations (nothing, `transitionTo(t)` or `eventHandled()`).
  An event callback is a table from event to `Action`.
- `HsmEngine` (`engine.dfy`): `transitionTo` and `handleEvent` as pure
  functions over a snapshot of the machine's fields. The snapshot also holds
  how often each scripted callback has run, and the trace of every callback
  invocation (`Entry`, `Exit`, `Event`). A callback that calls `transitionTo`
  re-enters `Transition`, so the mutual recursion terminates on the counter
  budget. The transition loop terminates on a measure that falls in both
  branches. Off the destination's chain it exceeds every value it takes on
  that chain, and it falls with the index as an exit climbs to the parent.
  On the chain it falls as the index rises, while an entry moves down.
- `HsmMachine` (`machine.dfy`): the `StateMachine` class. It has the fields of
  the original and its loops, including the `goto END` as a labelled block.
  Every method is proved to leave the fields in exactly the state the
  `HsmEngine` function computes.
- `HsmReference` (`reference.dfy`): a reference definition of the calls a
  transition should make. It is built from the two parent chains and their
  lowest common ancestor, independently of the one-step loop. The module also
  proves the facts about parent chains that the other proofs rely on.
- `HsmProperties` (`properties.dfy`): what the engine is proved to do.
  - A transition whose callbacks make no nested transition (a "quiet" one)
    makes exactly the reference calls and ends in the destination.
  - A nested transition takes over from the one it interrupts.
  - The two reconciliation rules hold.
  - The counter is reset by the outermost call, and a call past the bound
    does nothing.
  - Events bubble to the first consumer.
- `HsmScenarios` (`scenarios.dfy`): the fixture of the repository's test
  suite, with its callbacks written as scripts. Each test's expectations are
  proved: the final state, and every callback invoked, in order.

`isChildOf(parent, child)` is reflexive: its loop compares `child` itself
before it steps up. The reconciliation rules and the self-re-entry of state8
depend on that.

## Model

| member | source | states |
|---|---|---|
| HsmTree.NewState | include/NinjaHSM/State.hpp:14-31 | The constructed State holds exactly the name, entry, event and exit callbacks and parent link it was given. |
| HsmTree.BranchChild | include/NinjaHSM/StateMachine.hpp:156-168 | The search of the transition loop has two outcomes. When it finds a state, that state lies on the destination's chain and its parent is the current state. When it fails, no state on that chain has the current state as its parent. |
| HsmEngine.Initial | include/NinjaHSM/StateMachine.hpp:72-95 | A new machine has no current state, both flags false, both markers null, the counter at 0, and no callback run yet. |
| HsmEngine.Reconcile | include/NinjaHSM/StateMachine.hpp:119-131 | A marked entry state on the destination's chain becomes the current state and its marker is cleared. A marked exit state off that chain is replaced by its parent and its marker is cleared; this rule wins when both apply. A marker that matches neither rule is kept, and no other field changes. |
| HsmEngine.Finish | include/NinjaHSM/StateMachine.hpp:199-206 | At END the counter is reset to 0 when the call is the outermost one (its own count is 1) and kept otherwise; nothing else changes. |
| HsmEngine.Transition | include/NinjaHSM/StateMachine.hpp:101-207 | Whatever its callbacks do, `transitionTo` keeps every reference inside the forest and sets `transitionToCalled`. The trace only grows and never gains an event call. Each marker is kept or cleared. An outermost call ends with the counter at 0; a nested call raises it, but never beyond limit + 1. A call at or past the limit invokes no callback and leaves the current state and the markers as they were. |
| HsmEngine.Resume | include/NinjaHSM/StateMachine.hpp:133-206 | The part of a transition after reconciliation keeps the same invariants. It resets the counter when run by the outermost invocation and otherwise keeps it between that invocation's count and limit + 1. |
| HsmEngine.TransitionLoop | include/NinjaHSM/StateMachine.hpp:144-197 | The loop terminates and keeps the invariants of `Resume`. |
| HsmEngine.OffPathWhenNotFound | include/NinjaHSM/StateMachine.hpp:156-196 | The search fails only when the current state is off the destination's chain, so the exit branch never runs on a null current state. |
| HsmEngine.LoopEnter | include/NinjaHSM/StateMachine.hpp:170-184 | The entry branch keeps the invariants of `Resume`. |
| HsmEngine.LoopExit | include/NinjaHSM/StateMachine.hpp:186-196 | The exit branch keeps the invariants of `Resume`. |
| HsmEngine.CallEntry | include/NinjaHSM/StateMachine.hpp:174-176 | Running an entry callback records its own call first. The counter moves only if the callback made a nested transition, and the current state moves only then. |
| HsmEngine.CallExit | include/NinjaHSM/StateMachine.hpp:189-191 | The same for an exit callback. |
| HsmEngine.EntryRecorded | include/NinjaHSM/StateMachine.hpp:175 | Invoking an entry callback appends its call to the trace and advances that state's entry script by one run, leaving every other run count and field unchanged. |
| HsmEngine.ExitRecorded | include/NinjaHSM/StateMachine.hpp:190 | The same for an exit callback. |
| HsmEngine.Perform | include/NinjaHSM/State.hpp:10-12 | A callback acts on the machine only through `transitionTo`, which sets `transitionToCalled`, or through `eventHandled`, which sets `eventHandledCalled`. |
| HsmEngine.CallEvent | include/NinjaHSM/StateMachine.hpp:43 | Delivering an event records the event call and keeps both markers. |
| HsmEngine.Dispatch | include/NinjaHSM/StateMachine.hpp:35-49 | `handleEvent` keeps the counter invariant and the markers, and only appends to the trace. |
| HsmEngine.Bubble | include/NinjaHSM/StateMachine.hpp:42-48 | The bubbling loop terminates at the root and keeps the same invariants as `Dispatch`. |
| HsmMachine.StateMachine.constructor | include/NinjaHSM/StateMachine.hpp:72-95 | The fields start as in `Initial`: no current state, flags false, markers null, counter 0. |
| HsmMachine.StateMachine.GetCurrentState | include/NinjaHSM/StateMachine.hpp:56-58 | Returns the current state without changing anything. |
| HsmMachine.StateMachine.InitialTransitionTo | include/NinjaHSM/StateMachine.hpp:25-27 | The initial transition is exactly `transitionTo`. |
| HsmMachine.StateMachine.EventHandled | include/NinjaHSM/StateMachine.hpp:66-68 | Sets `eventHandledCalled`; every other field is unchanged. |
| HsmMachine.StateMachine.HandleEvent | include/NinjaHSM/StateMachine.hpp:35-49 | The loop leaves the fields exactly as `Dispatch` specifies. |
| HsmMachine.StateMachine.IsChildOf | include/NinjaHSM/StateMachine.hpp:209-218 | True if and only if `parent` is `child` itself or one of its ancestors. It changes nothing. |
| HsmMachine.StateMachine.SearchDestinationBranch | include/NinjaHSM/StateMachine.hpp:156-168 | The inner search loop finds a state exactly when `BranchChild` does, and finds the same state. |
| HsmMachine.StateMachine.TransitionTo | include/NinjaHSM/StateMachine.hpp:101-108 | The fields end exactly as `Transition` specifies, including the early return past the limit. |
| HsmMachine.StateMachine.ReconcileMarkers | include/NinjaHSM/StateMachine.hpp:119-131 | Applies both reconciliation rules, as `Reconcile` states, using `IsChildOf`. |
| HsmMachine.StateMachine.Resume | include/NinjaHSM/StateMachine.hpp:133-206 | Covers the self-transition exit, the `goto END` when it is interrupted, the walk, and the counter reset, exactly as `HsmEngine.Resume` specifies. |
| HsmMachine.StateMachine.WalkTo | include/NinjaHSM/StateMachine.hpp:144-197 | The `while` loop computes `TransitionLoop`, and stops early when a callback made a nested transition. |
| HsmMachine.StateMachine.Step | include/NinjaHSM/StateMachine.hpp:156-196 | One iteration either ends the loop because of a nested transition, or keeps the loop's outcome while its measure falls. |
| HsmMachine.StateMachine.EnterNext | include/NinjaHSM/StateMachine.hpp:170-184 | Marks, enters and clears the marker. It then moves to the next state, unless a nested transition took over. |
| HsmMachine.StateMachine.ExitCurrent | include/NinjaHSM/StateMachine.hpp:186-196 | Marks, exits and clears the marker. It then moves to the parent, unless a nested transition took over. |
| HsmMachine.StateMachine.CallEntry | include/NinjaHSM/StateMachine.hpp:175 | Runs the scripted entry callback, as `HsmEngine.CallEntry` specifies. |
| HsmMachine.StateMachine.CallExit | include/NinjaHSM/StateMachine.hpp:190 | Runs the scripted exit callback, as `HsmEngine.CallExit` specifies. |
| HsmMachine.StateMachine.CallEvent | include/NinjaHSM/StateMachine.hpp:43 | Runs the event callback, as `HsmEngine.CallEvent` specifies. |
| HsmMachine.StateMachine.Perform | include/NinjaHSM/State.hpp:10-12 | Carries out a callback's single action, as `HsmEngine.Perform` specifies. |
| HsmReference.ChainIsAncestry | include/NinjaHSM/StateMachine.hpp:209-218 | A state lies on the parent chain of `s` if and only if some number of parent steps from `s` reaches it (zero steps: `s` itself). |
| HsmReference.ChainLinks | include/NinjaHSM/State.hpp:31 | Consecutive chain entries are linked by `parent`, and the chain ends at a root. |
| HsmReference.ChainDescends | include/NinjaHSM/State.hpp:31 | Along a chain the indices strictly decrease, so no state repeats. |
| HsmReference.FoundWhenOnPath | include/NinjaHSM/StateMachine.hpp:156-170 | When the current state is null, or an ancestor of the destination other than the destination, the search succeeds (the converse of `OffPathWhenNotFound`). |
| HsmReference.NotFoundWhenOffPath | include/NinjaHSM/StateMachine.hpp:156-168 | When the current state is off the destination's chain, the search fails. |
| HsmReference.BelowThenChain | include/NinjaHSM/StateMachine.hpp:144-197 | A chain splits into the states below a given ancestor, followed by that ancestor's own chain. |
| HsmReference.CommonAncestorIsLowest | include/NinjaHSM/StateMachine.hpp:144-197 | The common ancestor the walk turns at is the lowest state on both chains. |
| HsmReference.ExitSetOfBelow | include/NinjaHSM/StateMachine.hpp:186-196 | The states below the common ancestor on the old chain are exactly the old states that are not ancestors of the destination. |
| HsmReference.EntrySetOfBelow | include/NinjaHSM/StateMachine.hpp:170-184 | The states below the common ancestor on the destination's chain are exactly its ancestors that are not ancestors of the old state. |
| HsmReference.ReferenceExitSet | include/NinjaHSM/StateMachine.hpp:186-196 | A transition's reference calls exit `x` if and only if `x` is on the old chain and not on the destination's chain. |
| HsmReference.ReferenceEntrySet | include/NinjaHSM/StateMachine.hpp:170-184 | The reference calls enter `x` if and only if `x` is on the destination's chain and not on the old chain; so the common ancestor is neither exited nor entered. |
| HsmReference.ReferenceOrder | include/NinjaHSM/StateMachine.hpp:144-197 | The reference calls contain no event calls, and every exit comes before every entry. Exits run innermost first (each later one is an ancestor of the earlier), entries outermost first. |
| HsmReference.ChildReference | include/NinjaHSM/StateMachine.hpp:170-184 | From a state to one of its children the reference is the single entry of that child. |
| HsmProperties.QuietCallEntry | include/NinjaHSM/StateMachine.hpp:175 | An entry callback that does not transition only records its call and advances its own script; it may mark the event handled. |
| HsmProperties.QuietCallExit | include/NinjaHSM/StateMachine.hpp:190 | The same for an exit callback. |
| HsmProperties.NestedEntry | include/NinjaHSM/StateMachine.hpp:174-180 | When an entry callback calls `transitionTo(t)`, the interrupted loop stops. Its outcome is that of the nested transition: the marker is set during the callback and cleared afterwards, and nothing further is called or moved. |
| HsmProperties.NestedExit | include/NinjaHSM/StateMachine.hpp:189-195 | The same for an exit callback. |
| HsmProperties.NestedSelfExit | include/NinjaHSM/StateMachine.hpp:133-139 | When the exit callback of a self-transition calls `transitionTo(t)`, the `goto END` skips the entry: the outcome is the nested transition's, with the counter then reset by an outermost call. |
| HsmProperties.LoopDescends | include/NinjaHSM/StateMachine.hpp:156-184 | From an ancestor of the destination, with quiet entry callbacks, the loop enters the states below it down to the destination, outermost first, and ends there. |
| HsmProperties.LoopAscends | include/NinjaHSM/StateMachine.hpp:144-197 | With quiet callbacks the loop makes exactly the reference calls and ends in the destination. |
| HsmProperties.TransitionPastBound | include/NinjaHSM/StateMachine.hpp:101-107 | At or past the limit, `transitionTo` only sets the flag and raises the counter. |
| HsmProperties.QuietResume | include/NinjaHSM/StateMachine.hpp:133-206 | After reconciliation, quiet callbacks give the reference calls and end in the destination, with the counter reset by the outermost call. |
| HsmProperties.QuietTransition | include/NinjaHSM/StateMachine.hpp:101-207 | A quiet transition ends in the destination, with the reference calls from the state it resumes from. The counter ends at 0 for the outermost call and one higher otherwise, and markers are only cleared. |
| HsmProperties.TransitionKeepsIdle | include/NinjaHSM/StateMachine.hpp:174-206 | Whatever its callbacks do, a top-level transition ends with the counter at 0 and both markers clear. |
| HsmProperties.DispatchKeepsIdle | include/NinjaHSM/StateMachine.hpp:35-49 | The same for `handleEvent`. |
| HsmProperties.OutermostTransition | include/NinjaHSM/StateMachine.hpp:101-207 | A quiet top-level transition from the current state ends in the destination, with exactly the reference calls, and leaves the machine idle. |
| HsmProperties.InitialTransition | include/NinjaHSM/StateMachine.hpp:25-27 | The first transition of a fresh machine makes no exit call. It enters every state of the destination's chain, root first, and ends in the destination. |
| HsmProperties.EnterRoot | include/NinjaHSM/StateMachine.hpp:156-184 | From no state, a transition to a root whose entry does not transition runs that entry only, and ends in the root. |
| HsmProperties.SelfTransition | include/NinjaHSM/StateMachine.hpp:133-141 | A transition to the current state exits it once, enters it once, and stays in it. |
| HsmProperties.EntryRedirect | include/NinjaHSM/StateMachine.hpp:119-125 | A nested transition from the entry of `s` to `s` or a descendant resumes from `s`, so `s` is not entered again unless `s` is the destination itself. Both markers end clear. |
| HsmProperties.ExitRedirect | include/NinjaHSM/StateMachine.hpp:127-131 | A nested transition from the exit of `s` to a non-descendant resumes from `s`'s parent, so `s` is not exited again. Both markers end clear. |
| HsmProperties.BubbleUnhandled | include/NinjaHSM/StateMachine.hpp:42-48 | An event nobody on the chain reacts to is offered to every state of the chain, innermost first, and changes nothing else. |
| HsmProperties.UnhandledEvent | include/NinjaHSM/StateMachine.hpp:35-49 | `handleEvent` of such an event clears both flags, calls every state's event callback from the current state to the root, and leaves the current state unchanged. |
| HsmProperties.BubbleStops | include/NinjaHSM/StateMachine.hpp:42-48 | The event reaches the first state on the chain that reacts to it, after every state below it, and no state above it. |
| HsmProperties.FirstConsumer | include/NinjaHSM/StateMachine.hpp:35-49 | `handleEvent` clears the flags, offers the event from the current state up to its first consumer, and then runs that consumer's action. |
| HsmScenarios.TestTreeIsFixture | test/standard/tests.cpp:50-168 | The fixture's states, parent links and callbacks are a well-formed forest. |
| HsmScenarios.StartInState1 | test/standard/tests.cpp:617-626 | `initialTransitionTo(state1)` on a fresh machine enters state1 once, runs no other callback, and leaves the machine idle in state1. |
| HsmScenarios.StartInState1A | test/standard/tests.cpp:674-684 | `initialTransitionTo(state1A)` on a fresh machine enters state1 and then state1A, and leaves the machine idle in 1A. |
| HsmScenarios.GoToState1AInState1 | test/standard/tests.cpp:628-637 | From state1, `GO_TO_STATE_1A` is taken by state1 and enters state1A only; state1 is not exited. |
| HsmScenarios.GoToState2InState1A | test/standard/tests.cpp:728-736 | From state1A, `GO_TO_STATE_2` is taken by state1A and not offered to state1. It exits 1A and 1, then enters 2. |
| HsmScenarios.GoToState1InState1 | test/standard/tests.cpp:662-671 | From state1, `GO_TO_STATE_1` exits and re-enters state1 once each. |
| HsmScenarios.NoOneHandlesThisInState1A | test/standard/tests.cpp:686-694 | An event nobody handles reaches state1A and then state1, once each, and the state is unchanged. |
| HsmScenarios.EveryoneHandlesThisInState1A | test/standard/tests.cpp:707-715 | The `eventHandled` call in state1A stops bubbling before state1. |
| HsmScenarios.GoToState3InState1 | test/standard/tests.cpp:748-758 | From state1, `GO_TO_STATE_3` makes state3's entry redirect to state1. The calls are: exit 1, enter 3, enter 1; the machine ends idle in state1. |
| HsmScenarios.GoToState1BInState1 | test/standard/tests.cpp:770-781 | The entry of state1B redirects to its sibling 1C without exiting state1, and the machine ends in 1C. |
| HsmScenarios.GoToState4InState1 | test/standard/tests.cpp:793-804 | The entry of state4 redirects to its child 4A; state4 is entered once and never exited. |
| HsmScenarios.ChainedLevel1 | test/standard/tests.cpp:816-838 | The chain of entry redirects 5 → 5A → 5A1 → 1 gives: exit 1, enter 5, 5A, 5A1, exit 5A, 5, enter 1. The machine ends idle in state1. |
| HsmScenarios.GoToState5InState1 | test/standard/tests.cpp:816-838 | The whole dispatch: an event call on state1, followed by the calls of `ChainedLevel1`. |
| HsmScenarios.GoToState6InState1 | test/standard/tests.cpp:850-859 | From state1, `GO_TO_STATE_6` exits 1 and enters 6. |
| HsmScenarios.GoToState1InState6 | test/standard/tests.cpp:861-873 | The exit of state6 redirects to its child 6A. State6 is exited once and never re-entered, and the machine ends in 6A. |
| HsmScenarios.GoToState7InState1 | test/standard/tests.cpp:885-894 | From state1, `GO_TO_STATE_7` exits 1 and enters 7. |
| HsmScenarios.GoToState1InState7 | test/standard/tests.cpp:896-907 | The exit of state7 redirects to state2. State7 is exited once and state2 entered; the machine ends in state2. |
| HsmScenarios.GoToState8InState1 | test/standard/tests.cpp:915-925 | The first entry of state8 transitions to state8. The calls are: enter 8, exit 8, enter 8 (two entries, one exit), and the machine ends in state8. |
| HsmScenarios.ChildStateTransitionsWork | test/standard/tests.cpp:617-649 | The whole test from a fresh machine: enter 1; event to 1, enter 1A, ending in 1A; event to 1A, exit 1A, exit 1, enter 2, ending in 2. |
| HsmScenarios.TransitionToSameStateCallsExitEntryAgain | test/standard/tests.cpp:651-672 | The whole test: enter 1, event to 1, exit 1, enter 1, ending in state1. |
| HsmScenarios.EventsBubbleUpToParentStates | test/standard/tests.cpp:674-695 | The whole test: enter 1, enter 1A, event to 1A, event to 1, ending in 1A. |
| HsmScenarios.EventHandledStopsBubbleUp | test/standard/tests.cpp:697-716 | The whole test: enter 1, enter 1A, event to 1A only, ending in 1A with the event marked handled. |
| HsmScenarios.TransitionToStopsBubbleUp | test/standard/tests.cpp:718-737 | The whole test: enter 1, enter 1A, event to 1A only, exit 1A, exit 1, enter 2, ending in state2. |
| HsmScenarios.EntryGuardsWorkWithTopLevelStates | test/standard/tests.cpp:739-759 | The whole test: enter 1, event to 1, exit 1, enter 3, enter 1, ending in state1. |
| HsmScenarios.EntryGuardsWorkWithChildStates | test/standard/tests.cpp:761-782 | The whole test: enter 1, event to 1, enter 1B, enter 1C, ending in 1C. |
| HsmScenarios.CanTransitionToChildStateFromParentEntry | test/standard/tests.cpp:784-805 | The whole test: enter 1, event to 1, exit 1, enter 4, enter 4A, ending in 4A. |
| HsmScenarios.ChainedTransitionToInEntryFunctions | test/standard/tests.cpp:807-839 | The whole test: enter 1, event to 1, exit 1, enter 5, 5A, 5A1, exit 5A, 5, enter 1, ending in state1. |
| HsmScenarios.CanTransitionToChildStateFromParentExit | test/standard/tests.cpp:841-874 | The whole test: enter 1; event to 1, exit 1, enter 6, ending in 6; event to 6, exit 6, enter 6A, ending in 6A. |
| HsmScenarios.CanTransitionToParentStateFromChildExit | test/standard/tests.cpp:876-908 | The whole test: enter 1; event to 1, exit 1, enter 7, ending in 7; event to 7, exit 7, enter 2, ending in state2. |
| HsmScenarios.CanTransitionToSelfFromEntry | test/standard/tests.cpp:910-926 | The whole test: enter 1, event to 1, exit 1, enter 8, exit 8, enter 8, ending in state8. |

## Left out

- Logging: every `std::cout` line in `transitionTo` is left out. This includes line 200, which dereferences `currentState->name` and would fault when an interrupted transition reaches END with a null current state.
- Callbacks: the `etl::delegate` and `std::bind` machinery is not modelled. Each callback is a script with one action per invocation: nothing, one `transitionTo`, or one `eventHandled`. A callback that calls into the machine several times, or calls `handleEvent` from inside a callback, is not modelled. Event callbacks are a fixed table from event to action, with no state of their own: the same event always gets the same reaction in a given state, so an event callback whose reaction depends on how often it has run, or on other data, is not modelled (entry and exit callbacks do have such a run count).
- Events: the event reaches a callback by value, as the `EventDelegate` type states (`const EventType&`). `handleEvent` takes the event by address (`Event *`), and the test fixture's callbacks take `const EventWrapper *`; the event's address is not modelled.
- Numbering: states are indices whose parent has a smaller index. Every acyclic forest of `State` objects can be numbered this way, but the model does not take cyclic parent links, which the code would loop on forever.
- The counter: `maxRecursionCount` is a `uint32_t` in the source and a `nat` here. No wrap-around is modelled, because `HsmEngine.Transition` proves the counter never exceeds `MAX_RECURSION_COUNT + 1`.
- Construction: the model's constructor takes the forest the machine works on. In the source the machine is default-constructed and reaches states only through the `State *` addresses passed to `transitionTo`.
- Access: the `protected` access of the fields and of `transitionTo` is not modelled.
- Names: state names are stored but only used for logging.
- `MAX_STATES` (`include/NinjaHSM/StateMachine.hpp:12`) is unused and not modelled.
- `include/NinjaHSM/NinjaHSM.hpp` (includes and an unused result enum) is not part of this model.
- The test harness: the gtest harness and the fixture's per-callback counters are left out; the counters are read off the proved call traces instead. The fixture calls an `addState` that the header does not declare, and its event-callback signatures do not match the delegate type; both are ignored.
- `examples/basic_example/main.cpp` and the early revision in `src/` and `test/tests.cpp` are not part of this model.
- Concurrency: the machine is single-threaded and synchronous, and so is the model.
- HsmProperties.QuietTransition: it covers transitions whose callbacks make no nested transition. For nested ones, `HsmProperties.NestedEntry`, `HsmProperties.NestedExit` and `HsmProperties.NestedSelfExit` (the exit callback of a self-transition) state that the nested call decides the outcome, and `HsmEngine.Transition` states the invariants of every transition. No closed form of the call sequence of an arbitrary chain of nested transitions is given.
- Null destinations: `HsmEngine.Transition` and `HsmMachine.StateMachine.TransitionTo` take a destination in the forest. `transitionTo(nullptr)` is not modelled: the source dereferences the destination at line 113 of `include/NinjaHSM/StateMachine.hpp`, after the limit check, so past the limit such a call returns normally, and below it the call faults.
