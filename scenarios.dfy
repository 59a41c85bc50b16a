/**
  The state machine of the repository's test suite, with the callbacks its
  test fixture defines written as scripts, and the outcome of each test
  scenario proved about the engine: the state the machine ends in, every
  callback invoked in order, and the counters the tests check.
*/
module HsmScenarios {
  import opened HsmTree
  import opened HsmEngine
  import opened HsmReference
  import opened HsmProperties

  /** The events of the test fixture that carry no data. */
  datatype EventId =
    | GoToState1 | GoToState1A | GoToState1B | GoToState2 | GoToState3 | GoToState4
    | GoToState5 | GoToState6 | GoToState7 | GoToState8 | NoOneHandlesThis | EveryoneHandlesThis

  const S1: int := 0
  const S1A: int := 1
  const S1B: int := 2
  const S1C: int := 3
  const S2: int := 4
  const S3: int := 5
  const S4: int := 6
  const S4A: int := 7
  const S5: int := 8
  const S5A: int := 9
  const S5A1: int := 10
  const S6: int := 11
  const S6A: int := 12
  const S7: int := 13
  const S8: int := 14

  /** A callback that only counts its calls. */
  function Counts(): Script {
    Script([], Nop)
  }

  /** A callback that always calls `transitionTo(t)`. */
  function Redirects(t: int): Script {
    Script([], TransitionTo(t))
  }

  /** The states of the test fixture: state1 with children 1A, 1B and 1C,
      state4 with child 4A, state5 with child 5A and grandchild 5A1, state6
      with child 6A, and the roots state2, state3, state7 and state8. */
  function TestTree(): seq<State<EventId>> {
    [ NewState("State1", Counts(),
        map[GoToState1 := TransitionTo(S1), GoToState1A := TransitionTo(S1A), GoToState1B := TransitionTo(S1B),
            GoToState3 := TransitionTo(S3), GoToState4 := TransitionTo(S4), GoToState5 := TransitionTo(S5),
            GoToState6 := TransitionTo(S6), GoToState7 := TransitionTo(S7), GoToState8 := TransitionTo(S8)],
        Counts(), Null),
      NewState("State1A", Counts(), map[GoToState2 := TransitionTo(S2), EveryoneHandlesThis := MarkHandled], Counts(), S1),
      NewState("State1B", Redirects(S1C), map[], Counts(), S1),
      NewState("State1C", Counts(), map[], Counts(), S1),
      NewState("State2", Counts(), map[], Counts(), Null),
      NewState("State3", Redirects(S1), map[], Counts(), Null),
      NewState("State4", Redirects(S4A), map[], Counts(), Null),
      NewState("State4A", Counts(), map[], Counts(), S4),
      NewState("State5", Redirects(S5A), map[], Counts(), Null),
      NewState("State5A", Redirects(S5A1), map[], Counts(), S5),
      NewState("State5A1", Redirects(S1), map[], Counts(), S5A),
      NewState("State6", Counts(), map[GoToState1 := TransitionTo(S1)], Redirects(S6A), Null),
      NewState("State6A", Counts(), map[], Counts(), S6),
      NewState("State7", Counts(), map[GoToState1 := TransitionTo(S1)], Redirects(S2), Null),
      NewState("State8", Script([TransitionTo(S8)], Nop), map[], Counts(), Null)
    ]
  }

  /** The reactions of state1's event callback. */
  function State1Reactions(): map<EventId, Action> {
    map[GoToState1 := TransitionTo(S1), GoToState1A := TransitionTo(S1A), GoToState1B := TransitionTo(S1B),
        GoToState3 := TransitionTo(S3), GoToState4 := TransitionTo(S4), GoToState5 := TransitionTo(S5),
        GoToState6 := TransitionTo(S6), GoToState7 := TransitionTo(S7), GoToState8 := TransitionTo(S8)]
  }

  /** What the scenarios need to know of the fixture: its parent links and
      its callbacks. */
  predicate Fixture(t: seq<State<EventId>>) {
    && WellFormed(t) && |t| == 15
    && t[S1].parent == Null && t[S1A].parent == S1 && t[S1B].parent == S1 && t[S1C].parent == S1
    && t[S2].parent == Null && t[S3].parent == Null && t[S4].parent == Null && t[S4A].parent == S4
    && t[S5].parent == Null && t[S5A].parent == S5 && t[S5A1].parent == S5A
    && t[S6].parent == Null && t[S6A].parent == S6 && t[S7].parent == Null && t[S8].parent == Null
    && t[S1].entry == Counts() && t[S1A].entry == Counts() && t[S1B].entry == Redirects(S1C)
    && t[S1C].entry == Counts() && t[S2].entry == Counts() && t[S3].entry == Redirects(S1)
    && t[S4].entry == Redirects(S4A) && t[S4A].entry == Counts() && t[S5].entry == Redirects(S5A)
    && t[S5A].entry == Redirects(S5A1) && t[S5A1].entry == Redirects(S1) && t[S6].entry == Counts()
    && t[S6A].entry == Counts() && t[S7].entry == Counts() && t[S8].entry == Script([TransitionTo(S8)], Nop)
    && t[S1].exit == Counts() && t[S1A].exit == Counts() && t[S1B].exit == Counts() && t[S1C].exit == Counts()
    && t[S2].exit == Counts() && t[S3].exit == Counts() && t[S4].exit == Counts() && t[S4A].exit == Counts()
    && t[S5].exit == Counts() && t[S5A].exit == Counts() && t[S5A1].exit == Counts()
    && t[S6].exit == Redirects(S6A) && t[S6A].exit == Counts() && t[S7].exit == Redirects(S2)
    && t[S8].exit == Counts()
    && t[S1].event == State1Reactions()
    && t[S1A].event == map[GoToState2 := TransitionTo(S2), EveryoneHandlesThis := MarkHandled]
    && t[S6].event == map[GoToState1 := TransitionTo(S1)]
    && t[S7].event == map[GoToState1 := TransitionTo(S1)]
  }

  lemma TestTreeWellFormed()
    ensures WellFormed(TestTree()) && |TestTree()| == 15
  {
    var t := TestTree();
    forall i | 0 <= i < |t|
      ensures Null <= t[i].parent < i && ValidScript(15, t[i].entry) && ValidScript(15, t[i].exit)
      ensures ValidReactions(15, t[i].event)
    {
    }
  }

  /** The fixture's states are the ones the scenarios rely on. */
  lemma TestTreeIsFixture()
    ensures Fixture(TestTree())
  {
    TestTreeWellFormed();
  }

  /** The parent chains of the fixture. */
  lemma FixtureChains(t: seq<State<EventId>>)
    requires Fixture(t)
    ensures Chain(t, S1) == [S1] && Chain(t, S1A) == [S1A, S1] && Chain(t, S1B) == [S1B, S1]
    ensures Chain(t, S1C) == [S1C, S1] && Chain(t, S2) == [S2] && Chain(t, S3) == [S3]
    ensures Chain(t, S4) == [S4] && Chain(t, S4A) == [S4A, S4] && Chain(t, S5) == [S5]
    ensures Chain(t, S5A) == [S5A, S5] && Chain(t, S5A1) == [S5A1, S5A, S5]
    ensures Chain(t, S6) == [S6] && Chain(t, S6A) == [S6A, S6] && Chain(t, S7) == [S7] && Chain(t, S8) == [S8]
  {
    assert Chain(t, Null) == [];
    assert Chain(t, S1) == [S1];
    assert Chain(t, S4) == [S4];
    assert Chain(t, S5) == [S5];
    assert Chain(t, S5A) == [S5A, S5];
    assert Chain(t, S6) == [S6];
  }

  /** A fresh machine after `initialTransitionTo(state1)`: state1 is
      entered once, and no other callback has run. */
  lemma StartInState1(t: seq<State<EventId>>)
    requires Fixture(t)
    ensures var m := Transition(t, Initial(15), S1);
      && m.currentState == S1 && Idle(m) && m.trace == [Entry(S1)]
      && m.entryRuns == Initial(15).entryRuns[S1 := 1] && m.exitRuns == Initial(15).exitRuns
  {
    EnterRoot(t, Initial(15), S1);
  }

  /** A fresh machine after `initialTransitionTo(state1A)`: state1 is
      entered, then 1A. */
  lemma StartInState1A(t: seq<State<EventId>>)
    requires Fixture(t)
    ensures var m := Transition(t, Initial(15), S1A);
      && m.currentState == S1A && Idle(m) && m.trace == [Entry(S1), Entry(S1A)]
  {
    FixtureChains(t);
    InitialTransition(t, S1A);
    assert Reverse([S1A, S1]) == [S1, S1A];
  }

  /** Level 4 of the chained test: state5A1's entry transitions to state1,
      which is not below it, so the walk resumes from 5A: exit 5A, exit 5,
      enter 1. */
  lemma ChainedLevel4(t: seq<State<EventId>>, m: Engine)
    requires Fixture(t) && Fits(t, m) && m.maxRecursionCount == 3
    requires m.currentState == S5A && m.calledEntryState == S5A1 && m.calledExitState == Null
    ensures var r := Transition(t, m, S1);
      && r.currentState == S1 && r.maxRecursionCount == 4 && r.calledExitState == Null
      && r.trace == m.trace + [Exit(S5A), Exit(S5), Entry(S1)]
  {
    FixtureChains(t);
    assert ResumeFrom(t, m, S1) == S5A;
    assert CommonAncestor(t, S5A, S1) == Null;
    assert Below(t, S5A, Null) == [S5A, S5] && Below(t, S1, Null) == [S1];
    QuietTransition(t, m, S1);
  }

  /** Level 3: state5A's entry transitions to its child 5A1; 5A counts as
      entered, 5A1 is entered and its entry transitions again. */
  lemma ChainedLevel3(t: seq<State<EventId>>, m: Engine)
    requires Fixture(t) && Fits(t, m) && m.maxRecursionCount == 2
    requires m.calledEntryState == S5A && m.calledExitState == Null
    ensures var r := Transition(t, m, S5A1);
      && r.currentState == S1 && r.maxRecursionCount == 4 && Unmarked(r)
      && r.trace == m.trace + [Entry(S5A1), Exit(S5A), Exit(S5), Entry(S1)]
  {
    FixtureChains(t);
    var m1 := m.(transitionToCalled := true, maxRecursionCount := 3, currentState := S5A, calledEntryState := Null);
    assert Transition(t, m, S5A1) == TransitionLoop(t, m1, S5A1, 3);
    NestedEntry(t, m1, S5A1, 3, S5A1, S1);
    ChainedLevel4(t, Entering(t, m1, S5A1));
  }

  /** Level 2: state5's entry transitions to its child 5A; state5 counts as
      entered, 5A is entered and its entry transitions again. */
  lemma ChainedLevel2(t: seq<State<EventId>>, m: Engine)
    requires Fixture(t) && Fits(t, m) && m.maxRecursionCount == 1
    requires m.calledEntryState == S5 && m.calledExitState == Null
    ensures var r := Transition(t, m, S5A);
      && r.currentState == S1 && r.maxRecursionCount == 4 && Unmarked(r)
      && r.trace == m.trace + [Entry(S5A), Entry(S5A1), Exit(S5A), Exit(S5), Entry(S1)]
  {
    FixtureChains(t);
    var m1 := m.(transitionToCalled := true, maxRecursionCount := 2, currentState := S5, calledEntryState := Null);
    assert Transition(t, m, S5A) == TransitionLoop(t, m1, S5A, 2);
    NestedEntry(t, m1, S5A, 2, S5A, S5A1);
    ChainedLevel3(t, Entering(t, m1, S5A));
  }

  /** Level 1: the transition from state1 to state5 exits state1 and enters
      state5, whose entry transitions again; the outermost call resets the
      counter. */
  lemma ChainedLevel1(t: seq<State<EventId>>, m: Engine)
    requires Fixture(t) && Fits(t, m) && Idle(m) && m.currentState == S1
    ensures var r := Transition(t, m, S5);
      && r.currentState == S1 && Idle(r)
      && r.trace == m.trace + [Exit(S1), Entry(S5), Entry(S5A), Entry(S5A1), Exit(S5A), Exit(S5), Entry(S1)]
  {
    FixtureChains(t);
    var m1 := m.(transitionToCalled := true, maxRecursionCount := 1);
    StartLoop(t, m, S5);
    ExitStep(t, m1, S5, 1);
    var m2 := Exited(t, m1, S1);
    NestedEntry(t, m2, S5, 1, S5, S5A);
    ChainedLevel2(t, Entering(t, m2, S5));
  }

  /** From state1, the event for state5 is handled by state1, whose
      transition to state5 is redirected by the entry callbacks of 5, 5A and
      5A1 in turn. state5 and 5A are entered and exited once, 5A1 is entered
      and never exited, and the machine ends idle in state1, which was
      exited and entered once. */
  lemma GoToState5InState1(t: seq<State<EventId>>, m: Engine)
    requires Fixture(t) && Fits(t, m) && Idle(m) && m.currentState == S1
    ensures var r := Dispatch(t, m, GoToState5);
      && r.currentState == S1 && Idle(r)
      && r.trace == m.trace + [Event(S1), Exit(S1), Entry(S5), Entry(S5A), Entry(S5A1), Exit(S5A), Exit(S5), Entry(S1)]
  {
    FixtureChains(t);
    assert Below(t, S1, S1) == [];
    FirstConsumer(t, m, GoToState5, S1);
    ChainedLevel1(t, m.(transitionToCalled := false, eventHandledCalled := false, trace := m.trace + [Event(S1)]));
  }

  /** An event the current state's own callback acts on is offered to no
      other state. */
  lemma TakenByCurrent(t: seq<State<EventId>>, m: Engine, e: EventId)
    requires Fixture(t) && Fits(t, m) && 0 <= m.currentState < 15
    requires ReactionTo(t[m.currentState].event, e) != Nop
    ensures Dispatch(t, m, e) ==
      Perform(t, m.(transitionToCalled := false, eventHandledCalled := false, trace := m.trace + [Event(m.currentState)]),
              ReactionTo(t[m.currentState].event, e))
  {
    assert Below(t, m.currentState, m.currentState) == [];
    FirstConsumer(t, m, e, m.currentState);
  }

  /** An event the current state's own callback answers with
      `transitionTo(d)` is that transition, after the event was offered to
      the current state only. */
  lemma TransitionByCurrent(t: seq<State<EventId>>, m: Engine, e: EventId, d: int)
    requires Fixture(t) && Fits(t, m) && 0 <= m.currentState < 15
    requires ReactionTo(t[m.currentState].event, e) == TransitionTo(d)
    ensures 0 <= d < 15
    ensures Dispatch(t, m, e) ==
      Transition(t, m.(transitionToCalled := false, eventHandledCalled := false, trace := m.trace + [Event(m.currentState)]), d)
  {
    assert ValidReactions(15, t[m.currentState].event);
    TakenByCurrent(t, m, e);
  }

  /** The transition from state1 to its child 1A: enter 1A only. */
  lemma FromState1ToState1A(t: seq<State<EventId>>, x: Engine)
    requires Fixture(t) && Fits(t, x) && Idle(x) && x.currentState == S1
    ensures var r := Transition(t, x, S1A);
      && r.currentState == S1A && Idle(r) && r.trace == x.trace + [Entry(S1A)]
  {
    FixtureChains(t);
    ChildReference(t, S1A);
    ChildQuiet(t, x, S1A);
    OutermostTransition(t, x, S1A);
  }

  /** State1 takes the event for its child 1A, enters 1A and does not exit
      state1. */
  lemma GoToState1AInState1(t: seq<State<EventId>>, m: Engine)
    requires Fixture(t) && Fits(t, m) && Idle(m) && m.currentState == S1
    ensures var r := Dispatch(t, m, GoToState1A);
      && r.currentState == S1A && Idle(r)
      && r.trace == m.trace + [Event(S1), Entry(S1A)]
  {
    TransitionByCurrent(t, m, GoToState1A, S1A);
    FromState1ToState1A(t, m.(transitionToCalled := false, eventHandledCalled := false, trace := m.trace + [Event(S1)]));
  }

  /** The transition from 1A to the root state2: exit 1A, exit state1,
      enter state2. */
  lemma FromState1AToState2(t: seq<State<EventId>>, x: Engine)
    requires Fixture(t) && Fits(t, x) && Idle(x) && x.currentState == S1A
    ensures var r := Transition(t, x, S2);
      && r.currentState == S2 && Idle(r) && r.trace == x.trace + [Exit(S1A), Exit(S1), Entry(S2)]
  {
    FixtureChains(t);
    assert CommonAncestor(t, S1A, S2) == Null;
    assert Below(t, S1A, Null) == [S1A, S1] && Below(t, S2, Null) == [S2];
    OutermostTransition(t, x, S2);
  }

  /** State1A takes the event for state2, so state1 never sees it; 1A and
      then state1 are exited and state2 is entered. */
  lemma GoToState2InState1A(t: seq<State<EventId>>, m: Engine)
    requires Fixture(t) && Fits(t, m) && Idle(m) && m.currentState == S1A
    ensures var r := Dispatch(t, m, GoToState2);
      && r.currentState == S2 && Idle(r)
      && r.trace == m.trace + [Event(S1A), Exit(S1A), Exit(S1), Entry(S2)]
  {
    TransitionByCurrent(t, m, GoToState2, S2);
    FromState1AToState2(t, m.(transitionToCalled := false, eventHandledCalled := false, trace := m.trace + [Event(S1A)]));
  }

  /** A transition of state1 to itself exits it once and enters it once. */
  lemma GoToState1InState1(t: seq<State<EventId>>, m: Engine)
    requires Fixture(t) && Fits(t, m) && Idle(m) && m.currentState == S1
    ensures var r := Dispatch(t, m, GoToState1);
      && r.currentState == S1 && Idle(r)
      && r.trace == m.trace + [Event(S1), Exit(S1), Entry(S1)]
  {
    TransitionByCurrent(t, m, GoToState1, S1);
    SelfTransition(t, m.(transitionToCalled := false, eventHandledCalled := false, trace := m.trace + [Event(S1)]), S1);
  }

  /** An event nobody acts on is offered to 1A and then to its parent
      state1, and changes no state. */
  lemma NoOneHandlesThisInState1A(t: seq<State<EventId>>, m: Engine)
    requires Fixture(t) && Fits(t, m) && m.currentState == S1A
    ensures var r := Dispatch(t, m, NoOneHandlesThis);
      && r.currentState == S1A && !r.transitionToCalled && !r.eventHandledCalled
      && r.trace == m.trace + [Event(S1A), Event(S1)]
  {
    assert Chain(t, S1A) == [S1A, S1] by {
      assert Chain(t, Null) == [] && Chain(t, S1) == [S1];
    }
    UnhandledEvent(t, m, NoOneHandlesThis);
    assert Events([S1A, S1]) == [Event(S1A), Event(S1)];
  }

  /** State1A marks the event handled, so state1 never sees it. */
  lemma EveryoneHandlesThisInState1A(t: seq<State<EventId>>, m: Engine)
    requires Fixture(t) && Fits(t, m) && m.currentState == S1A
    ensures var r := Dispatch(t, m, EveryoneHandlesThis);
      && r == m.(transitionToCalled := false, eventHandledCalled := true, trace := m.trace + [Event(S1A)])
  {
    TakenByCurrent(t, m, EveryoneHandlesThis);
  }

  /** The transition state3's entry makes: nothing to exit once state1 is
      exited, so it enters state1 and clears the exit marker. */
  lemma FromState3EntryToState1(t: seq<State<EventId>>, z: Engine)
    requires Fixture(t) && Fits(t, z) && z.maxRecursionCount == 1
    requires z.currentState == Null && z.calledEntryState == S3 && z.calledExitState == Null
    ensures var r := Transition(t, z, S1);
      && r.currentState == S1 && r.maxRecursionCount == 2 && r.calledExitState == Null
      && r.trace == z.trace + [Entry(S1)]
  {
    FixtureChains(t);
    assert ResumeFrom(t, z, S1) == Null;
    ChildReference(t, S1);
    ChildQuiet(t, z, S1);
    QuietTransition(t, z, S1);
  }

  /** The transition of EntryGuardsWorkWithTopLevelStates: exit state1,
      enter state3, whose entry sends the machine back to state1. */
  lemma FromState1ToState3(t: seq<State<EventId>>, x: Engine)
    requires Fixture(t) && Fits(t, x) && Idle(x) && x.currentState == S1
    ensures var r := Transition(t, x, S3);
      && r.currentState == S1 && Idle(r)
      && r.trace == x.trace + [Exit(S1), Entry(S3), Entry(S1)]
  {
    FixtureChains(t);
    var x1 := x.(transitionToCalled := true, maxRecursionCount := 1);
    StartLoop(t, x, S3);
    ExitStep(t, x1, S3, 1);
    var y := Exited(t, x1, S1);
    NestedEntry(t, y, S3, 1, S3, S1);
    FromState3EntryToState1(t, Entering(t, y, S3));
  }

  /** State3's entry transitions back to state1. state1 is exited, state3
      entered, state1 entered again, and the machine ends idle in state1. */
  lemma GoToState3InState1(t: seq<State<EventId>>, m: Engine)
    requires Fixture(t) && Fits(t, m) && Idle(m) && m.currentState == S1
    ensures var r := Dispatch(t, m, GoToState3);
      && r.currentState == S1 && Idle(r)
      && r.trace == m.trace + [Event(S1), Exit(S1), Entry(S3), Entry(S1)]
  {
    TransitionByCurrent(t, m, GoToState3, S3);
    FromState1ToState3(t, m.(transitionToCalled := false, eventHandledCalled := false, trace := m.trace + [Event(S1)]));
  }

  /** The transition state1B's entry makes: 1B is not on the chain of 1C,
      so the walk resumes from state1 and enters 1C. */
  lemma FromState1BEntryToState1C(t: seq<State<EventId>>, z: Engine)
    requires Fixture(t) && Fits(t, z) && z.maxRecursionCount == 1
    requires z.currentState == S1 && z.calledEntryState == S1B && z.calledExitState == Null
    ensures var r := Transition(t, z, S1C);
      && r.currentState == S1C && r.maxRecursionCount == 2 && r.calledExitState == Null
      && r.trace == z.trace + [Entry(S1C)]
  {
    FixtureChains(t);
    assert ResumeFrom(t, z, S1C) == S1;
    ChildReference(t, S1C);
    ChildQuiet(t, z, S1C);
    QuietTransition(t, z, S1C);
  }

  /** The transition of EntryGuardsWorkWithChildStates: enter 1B, whose
      entry sends the machine on to its sibling 1C. */
  lemma FromState1ToState1B(t: seq<State<EventId>>, x: Engine)
    requires Fixture(t) && Fits(t, x) && Idle(x) && x.currentState == S1
    ensures var r := Transition(t, x, S1B);
      && r.currentState == S1C && Idle(r)
      && r.trace == x.trace + [Entry(S1B), Entry(S1C)]
  {
    FixtureChains(t);
    var x1 := x.(transitionToCalled := true, maxRecursionCount := 1);
    StartLoop(t, x, S1B);
    NestedEntry(t, x1, S1B, 1, S1B, S1C);
    FromState1BEntryToState1C(t, Entering(t, x1, S1B));
  }

  /** State1B's entry transitions to its sibling 1C. 1B is entered, then 1C,
      and state1 is neither exited nor entered again. */
  lemma GoToState1BInState1(t: seq<State<EventId>>, m: Engine)
    requires Fixture(t) && Fits(t, m) && Idle(m) && m.currentState == S1
    ensures var r := Dispatch(t, m, GoToState1B);
      && r.currentState == S1C && Idle(r)
      && r.trace == m.trace + [Event(S1), Entry(S1B), Entry(S1C)]
  {
    TransitionByCurrent(t, m, GoToState1B, S1B);
    FromState1ToState1B(t, m.(transitionToCalled := false, eventHandledCalled := false, trace := m.trace + [Event(S1)]));
  }

  /** The transition state4's entry makes: state4 is on the chain of 4A, so
      it counts as entered and only 4A is entered. */
  lemma FromState4EntryToState4A(t: seq<State<EventId>>, z: Engine)
    requires Fixture(t) && Fits(t, z) && z.maxRecursionCount == 1
    requires z.calledEntryState == S4 && z.calledExitState == Null
    ensures var r := Transition(t, z, S4A);
      && r.currentState == S4A && r.maxRecursionCount == 2 && r.calledExitState == Null
      && r.trace == z.trace + [Entry(S4A)]
  {
    FixtureChains(t);
    ChildReference(t, S4A);
    ChildQuiet(t, z, S4A);
    EntryRedirect(t, z, S4, S4A);
  }

  /** The transition of CanTransitionToChildStateFromParentEntry: exit
      state1, enter state4, whose entry sends the machine on to its child 4A. */
  lemma FromState1ToState4(t: seq<State<EventId>>, x: Engine)
    requires Fixture(t) && Fits(t, x) && Idle(x) && x.currentState == S1
    ensures var r := Transition(t, x, S4);
      && r.currentState == S4A && Idle(r)
      && r.trace == x.trace + [Exit(S1), Entry(S4), Entry(S4A)]
  {
    FixtureChains(t);
    var x1 := x.(transitionToCalled := true, maxRecursionCount := 1);
    StartLoop(t, x, S4);
    ExitStep(t, x1, S4, 1);
    var y := Exited(t, x1, S1);
    NestedEntry(t, y, S4, 1, S4, S4A);
    FromState4EntryToState4A(t, Entering(t, y, S4));
  }

  /** State4's entry transitions to its child 4A, so state4 counts as
      entered: it is entered once, never exited, and 4A is entered. */
  lemma GoToState4InState1(t: seq<State<EventId>>, m: Engine)
    requires Fixture(t) && Fits(t, m) && Idle(m) && m.currentState == S1
    ensures var r := Dispatch(t, m, GoToState4);
      && r.currentState == S4A && Idle(r)
      && r.trace == m.trace + [Event(S1), Exit(S1), Entry(S4), Entry(S4A)]
  {
    TransitionByCurrent(t, m, GoToState4, S4);
    FromState1ToState4(t, m.(transitionToCalled := false, eventHandledCalled := false, trace := m.trace + [Event(S1)]));
  }

  /** The transition from state1 to the root state6. */
  lemma FromState1ToState6(t: seq<State<EventId>>, x: Engine)
    requires Fixture(t) && Fits(t, x) && Idle(x) && x.currentState == S1
    ensures var r := Transition(t, x, S6);
      && r.currentState == S6 && Idle(r) && r.trace == x.trace + [Exit(S1), Entry(S6)]
  {
    FixtureChains(t);
    assert CommonAncestor(t, S1, S6) == Null && Below(t, S1, Null) == [S1] && Below(t, S6, Null) == [S6];
    OutermostTransition(t, x, S6);
  }

  /** From state1 to state6. */
  lemma GoToState6InState1(t: seq<State<EventId>>, m: Engine)
    requires Fixture(t) && Fits(t, m) && Idle(m) && m.currentState == S1
    ensures var r := Dispatch(t, m, GoToState6);
      && r.currentState == S6 && Idle(r)
      && r.trace == m.trace + [Event(S1), Exit(S1), Entry(S6)]
  {
    TransitionByCurrent(t, m, GoToState6, S6);
    FromState1ToState6(t, m.(transitionToCalled := false, eventHandledCalled := false, trace := m.trace + [Event(S1)]));
  }

  /** The transition state6's exit makes: state6 is on the chain of 6A, so
      it stays current and 6A is entered. */
  lemma FromState6ExitToState6A(t: seq<State<EventId>>, z: Engine)
    requires Fixture(t) && Fits(t, z) && z.maxRecursionCount == 1
    requires z.currentState == S6 && z.calledExitState == S6 && z.calledEntryState == Null
    ensures var r := Transition(t, z, S6A);
      && r.currentState == S6A && r.maxRecursionCount == 2 && r.calledEntryState == Null
      && r.trace == z.trace + [Entry(S6A)]
  {
    FixtureChains(t);
    assert ResumeFrom(t, z, S6A) == S6;
    ChildReference(t, S6A);
    ChildQuiet(t, z, S6A);
    QuietTransition(t, z, S6A);
  }

  /** The transition of CanTransitionToChildStateFromParentExit: the exit of
      state6 sends the machine to its child 6A instead of state1. */
  lemma FromState6ToState1(t: seq<State<EventId>>, x: Engine)
    requires Fixture(t) && Fits(t, x) && Idle(x) && x.currentState == S6
    ensures var r := Transition(t, x, S1);
      && r.currentState == S6A && Idle(r)
      && r.trace == x.trace + [Exit(S6), Entry(S6A)]
  {
    FixtureChains(t);
    var x1 := x.(transitionToCalled := true, maxRecursionCount := 1);
    StartLoop(t, x, S1);
    NestedExit(t, x1, S1, 1, S6A);
    FromState6ExitToState6A(t, Exiting(t, x1, S6));
  }

  /** State6's exit transitions to its child 6A, so state6 was not left: its
      exit runs once, 6A is entered, and state1 is never reached. */
  lemma GoToState1InState6(t: seq<State<EventId>>, m: Engine)
    requires Fixture(t) && Fits(t, m) && Idle(m) && m.currentState == S6
    ensures var r := Dispatch(t, m, GoToState1);
      && r.currentState == S6A && Idle(r)
      && r.trace == m.trace + [Event(S6), Exit(S6), Entry(S6A)]
  {
    TransitionByCurrent(t, m, GoToState1, S1);
    FromState6ToState1(t, m.(transitionToCalled := false, eventHandledCalled := false, trace := m.trace + [Event(S6)]));
  }

  /** The transition from state1 to the root state7. */
  lemma FromState1ToState7(t: seq<State<EventId>>, x: Engine)
    requires Fixture(t) && Fits(t, x) && Idle(x) && x.currentState == S1
    ensures var r := Transition(t, x, S7);
      && r.currentState == S7 && Idle(r) && r.trace == x.trace + [Exit(S1), Entry(S7)]
  {
    FixtureChains(t);
    assert CommonAncestor(t, S1, S7) == Null && Below(t, S1, Null) == [S1] && Below(t, S7, Null) == [S7];
    OutermostTransition(t, x, S7);
  }

  /** From state1 to state7. */
  lemma GoToState7InState1(t: seq<State<EventId>>, m: Engine)
    requires Fixture(t) && Fits(t, m) && Idle(m) && m.currentState == S1
    ensures var r := Dispatch(t, m, GoToState7);
      && r.currentState == S7 && Idle(r)
      && r.trace == m.trace + [Event(S1), Exit(S1), Entry(S7)]
  {
    TransitionByCurrent(t, m, GoToState7, S7);
    FromState1ToState7(t, m.(transitionToCalled := false, eventHandledCalled := false, trace := m.trace + [Event(S1)]));
  }

  /** The transition state7's exit makes: state7 is not on the chain of
      state2, so it counts as exited and state2 is entered. */
  lemma FromState7ExitToState2(t: seq<State<EventId>>, z: Engine)
    requires Fixture(t) && Fits(t, z) && z.maxRecursionCount == 1
    requires z.calledExitState == S7 && z.calledEntryState == Null
    ensures var r := Transition(t, z, S2);
      && r.currentState == S2 && r.maxRecursionCount == 2 && r.calledEntryState == Null
      && r.trace == z.trace + [Entry(S2)]
  {
    FixtureChains(t);
    ChildReference(t, S2);
    ChildQuiet(t, z, S2);
    ExitRedirect(t, z, S7, S2);
  }

  /** The transition of CanTransitionToParentStateFromChildExit: the exit of
      state7 sends the machine to state2 instead of state1. */
  lemma FromState7ToState1(t: seq<State<EventId>>, x: Engine)
    requires Fixture(t) && Fits(t, x) && Idle(x) && x.currentState == S7
    ensures var r := Transition(t, x, S1);
      && r.currentState == S2 && Idle(r)
      && r.trace == x.trace + [Exit(S7), Entry(S2)]
  {
    FixtureChains(t);
    var x1 := x.(transitionToCalled := true, maxRecursionCount := 1);
    StartLoop(t, x, S1);
    NestedExit(t, x1, S1, 1, S2);
    FromState7ExitToState2(t, Exiting(t, x1, S7));
  }

  /** State7's exit overrides the transition to state1 with one to state2,
      so state7 counts as exited: its exit runs once, state2 is entered,
      state1 is never reached. */
  lemma GoToState1InState7(t: seq<State<EventId>>, m: Engine)
    requires Fixture(t) && Fits(t, m) && Idle(m) && m.currentState == S7
    ensures var r := Dispatch(t, m, GoToState1);
      && r.currentState == S2 && Idle(r)
      && r.trace == m.trace + [Event(S7), Exit(S7), Entry(S2)]
  {
    TransitionByCurrent(t, m, GoToState1, S1);
    FromState7ToState1(t, m.(transitionToCalled := false, eventHandledCalled := false, trace := m.trace + [Event(S7)]));
  }

  /** The transition state8's first entry makes: state8 is its own
      destination, so it is exited and entered again, and its second entry
      does not transition. */
  lemma FromState8EntryToState8(t: seq<State<EventId>>, z: Engine)
    requires Fixture(t) && Fits(t, z) && z.maxRecursionCount == 1
    requires z.calledEntryState == S8 && z.calledExitState == Null && z.entryRuns[S8] == 1
    ensures var r := Transition(t, z, S8);
      && r.currentState == S8 && r.maxRecursionCount == 2 && r.calledExitState == Null
      && r.trace == z.trace + [Exit(S8), Entry(S8)]
  {
    FixtureChains(t);
    EntryRedirect(t, z, S8, S8);
  }

  /** The transition of CanTransitionToSelfFromEntry: exit state1, enter
      state8, whose first entry transitions to state8 itself. */
  lemma FromState1ToState8(t: seq<State<EventId>>, x: Engine)
    requires Fixture(t) && Fits(t, x) && Idle(x) && x.currentState == S1 && x.entryRuns[S8] == 0
    ensures var r := Transition(t, x, S8);
      && r.currentState == S8 && Idle(r)
      && r.trace == x.trace + [Exit(S1), Entry(S8), Exit(S8), Entry(S8)]
  {
    FixtureChains(t);
    var x1 := x.(transitionToCalled := true, maxRecursionCount := 1);
    StartLoop(t, x, S8);
    ExitStep(t, x1, S8, 1);
    var y := Exited(t, x1, S1);
    NestedEntry(t, y, S8, 1, S8, S8);
    FromState8EntryToState8(t, Entering(t, y, S8));
  }

  /** On its first run the entry of state8 transitions to state8 itself,
      which re-enters it: two entries, one exit, and the machine ends idle
      in state8. */
  lemma GoToState8InState1(t: seq<State<EventId>>, m: Engine)
    requires Fixture(t) && Fits(t, m) && Idle(m) && m.currentState == S1 && m.entryRuns[S8] == 0
    ensures var r := Dispatch(t, m, GoToState8);
      && r.currentState == S8 && Idle(r)
      && r.trace == m.trace + [Event(S1), Exit(S1), Entry(S8), Exit(S8), Entry(S8)]
  {
    TransitionByCurrent(t, m, GoToState8, S8);
    FromState1ToState8(t, m.(transitionToCalled := false, eventHandledCalled := false, trace := m.trace + [Event(S1)]));
  }

  // ----- the tests, each run on a fresh machine -----

  /** The machine of a test after `initialTransitionTo(state1)`. */
  function InState1(t: seq<State<EventId>>): Engine
    requires Fixture(t)
  {
    Transition(t, Initial(15), S1)
  }

  /** The machine of a test after `initialTransitionTo(state1A)`. */
  function InState1A(t: seq<State<EventId>>): Engine
    requires Fixture(t)
  {
    Transition(t, Initial(15), S1A)
  }

  /** Test ChildStateTransitionsWork: state1, then 1A without exiting
      state1, then state2 after exiting 1A and state1. */
  lemma ChildStateTransitionsWork(t: seq<State<EventId>>)
    requires Fixture(t)
    ensures var m1 := Dispatch(t, InState1(t), GoToState1A);
      var m2 := Dispatch(t, m1, GoToState2);
      && m1.currentState == S1A && m1.trace == [Entry(S1), Event(S1), Entry(S1A)]
      && m2.currentState == S2
      && m2.trace == m1.trace + [Event(S1A), Exit(S1A), Exit(S1), Entry(S2)]
  {
    StartInState1(t);
    GoToState1AInState1(t, InState1(t));
    GoToState2InState1A(t, Dispatch(t, InState1(t), GoToState1A));
  }

  /** Test TransitionToSameStateCallsExitEntryAgain. */
  lemma TransitionToSameStateCallsExitEntryAgain(t: seq<State<EventId>>)
    requires Fixture(t)
    ensures var m := Dispatch(t, InState1(t), GoToState1);
      && m.currentState == S1 && m.trace == [Entry(S1), Event(S1), Exit(S1), Entry(S1)]
  {
    StartInState1(t);
    GoToState1InState1(t, InState1(t));
  }

  /** Test EventsBubbleUpToParentStates. */
  lemma EventsBubbleUpToParentStates(t: seq<State<EventId>>)
    requires Fixture(t)
    ensures var m := Dispatch(t, InState1A(t), NoOneHandlesThis);
      && m.currentState == S1A && m.trace == [Entry(S1), Entry(S1A), Event(S1A), Event(S1)]
  {
    StartInState1A(t);
    NoOneHandlesThisInState1A(t, InState1A(t));
  }

  /** Test EventHandledStopsBubbleUp. */
  lemma EventHandledStopsBubbleUp(t: seq<State<EventId>>)
    requires Fixture(t)
    ensures var m := Dispatch(t, InState1A(t), EveryoneHandlesThis);
      && m.currentState == S1A && m.eventHandledCalled
      && m.trace == [Entry(S1), Entry(S1A), Event(S1A)]
  {
    StartInState1A(t);
    EveryoneHandlesThisInState1A(t, InState1A(t));
  }

  /** Test TransitionToStopsBubbleUp. */
  lemma TransitionToStopsBubbleUp(t: seq<State<EventId>>)
    requires Fixture(t)
    ensures var m := Dispatch(t, InState1A(t), GoToState2);
      && m.currentState == S2
      && m.trace == [Entry(S1), Entry(S1A), Event(S1A), Exit(S1A), Exit(S1), Entry(S2)]
  {
    StartInState1A(t);
    GoToState2InState1A(t, InState1A(t));
  }

  /** Test EntryGuardsWorkWithTopLevelStates. */
  lemma EntryGuardsWorkWithTopLevelStates(t: seq<State<EventId>>)
    requires Fixture(t)
    ensures var m := Dispatch(t, InState1(t), GoToState3);
      && m.currentState == S1
      && m.trace == [Entry(S1), Event(S1), Exit(S1), Entry(S3), Entry(S1)]
  {
    StartInState1(t);
    GoToState3InState1(t, InState1(t));
  }

  /** Test EntryGuardsWorkWithChildStates. */
  lemma EntryGuardsWorkWithChildStates(t: seq<State<EventId>>)
    requires Fixture(t)
    ensures var m := Dispatch(t, InState1(t), GoToState1B);
      && m.currentState == S1C
      && m.trace == [Entry(S1), Event(S1), Entry(S1B), Entry(S1C)]
  {
    StartInState1(t);
    GoToState1BInState1(t, InState1(t));
  }

  /** Test CanTransitionToChildStateFromParentEntry. */
  lemma CanTransitionToChildStateFromParentEntry(t: seq<State<EventId>>)
    requires Fixture(t)
    ensures var m := Dispatch(t, InState1(t), GoToState4);
      && m.currentState == S4A
      && m.trace == [Entry(S1), Event(S1), Exit(S1), Entry(S4), Entry(S4A)]
  {
    StartInState1(t);
    GoToState4InState1(t, InState1(t));
  }

  /** Test ChainedTransitionToInEntryFunctions. */
  lemma ChainedTransitionToInEntryFunctions(t: seq<State<EventId>>)
    requires Fixture(t)
    ensures var m := Dispatch(t, InState1(t), GoToState5);
      && m.currentState == S1
      && m.trace == [Entry(S1), Event(S1), Exit(S1), Entry(S5), Entry(S5A), Entry(S5A1),
                     Exit(S5A), Exit(S5), Entry(S1)]
  {
    StartInState1(t);
    GoToState5InState1(t, InState1(t));
  }

  /** Test CanTransitionToChildStateFromParentExit: into state6, then the
      exit of state6 redirects to its child 6A. */
  lemma CanTransitionToChildStateFromParentExit(t: seq<State<EventId>>)
    requires Fixture(t)
    ensures var m1 := Dispatch(t, InState1(t), GoToState6);
      var m2 := Dispatch(t, m1, GoToState1);
      && m1.currentState == S6 && m1.trace == [Entry(S1), Event(S1), Exit(S1), Entry(S6)]
      && m2.currentState == S6A && m2.trace == m1.trace + [Event(S6), Exit(S6), Entry(S6A)]
  {
    StartInState1(t);
    GoToState6InState1(t, InState1(t));
    GoToState1InState6(t, Dispatch(t, InState1(t), GoToState6));
  }

  /** Test CanTransitionToParentStateFromChildExit: into state7, then the
      exit of state7 redirects to state2. */
  lemma CanTransitionToParentStateFromChildExit(t: seq<State<EventId>>)
    requires Fixture(t)
    ensures var m1 := Dispatch(t, InState1(t), GoToState7);
      var m2 := Dispatch(t, m1, GoToState1);
      && m1.currentState == S7 && m1.trace == [Entry(S1), Event(S1), Exit(S1), Entry(S7)]
      && m2.currentState == S2 && m2.trace == m1.trace + [Event(S7), Exit(S7), Entry(S2)]
  {
    StartInState1(t);
    GoToState7InState1(t, InState1(t));
    GoToState1InState7(t, Dispatch(t, InState1(t), GoToState7));
  }

  /** Test CanTransitionToSelfFromEntry: state8 is entered twice and exited
      once. */
  lemma CanTransitionToSelfFromEntry(t: seq<State<EventId>>)
    requires Fixture(t)
    ensures var m := Dispatch(t, InState1(t), GoToState8);
      && m.currentState == S8
      && m.trace == [Entry(S1), Event(S1), Exit(S1), Entry(S8), Exit(S8), Entry(S8)]
  {
    StartInState1(t);
    GoToState8InState1(t, InState1(t));
  }
}
