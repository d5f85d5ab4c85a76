/** The five-state test automaton of the state-engine unit test: simple state A,
    composite B with substates C (initial) and D, and simple state E.

        A --A_B/ta--> B(C --C_D--> D) --D_E--> E,   B --B_A--> A,   C --C_C/ta--> C

    State objects are numbered a=0, b=1, c=2, d=3, e=4. */
module StateTest {
  import opened Basics
  import opened Events
  import opened StateChart
  import opened States

  const STATE_A := StateID(1, "")
  const STATE_B := StateID(2, "")
  const STATE_C := StateID(3, "")
  const STATE_D := StateID(4, "")
  const STATE_E := StateID(5, "")

  const EVENT_A_B := Event(0x1, "")
  const EVENT_B_A := Event(0x2, "")
  const EVENT_C_C := Event(0x4, "")
  const EVENT_C_D := Event(0x8, "")
  const EVENT_D_E := Event(0x10, "")

  /** The state classes StateA .. StateE. */
  function TestDefs(): seq<StateDef> {
    [ StateDef(STATE_A, Simple, Own(EVENT_A_B.value), [Handler(EVENT_A_B.value, STATE_B, true)]),
      StateDef(STATE_B, Composite, Own(EVENT_B_A.value), [Handler(EVENT_B_A.value, STATE_A, false)]),
      StateDef(STATE_C, Simple, Inherited(Union(EVENT_C_C.value, EVENT_C_D.value)),
               [Handler(EVENT_C_C.value, STATE_C, true), Handler(EVENT_C_D.value, STATE_D, false)]),
      StateDef(STATE_D, Simple, Inherited(EVENT_D_E.value), [Handler(EVENT_D_E.value, STATE_E, false)]),
      StateDef(STATE_E, Simple, Own(EVENT_NONE.value), []) ]
  }

  /** ALL_STATES = {&a, &b, &c, &d, &e}. */
  const ALL_STATES: seq<nat> := [0, 1, 2, 3, 4]

  /** The containment after b.setSubstates(B_SUBSTATES = {&c, &d}). */
  function TestTree(): Tree {
    Tree(TestDefs(), [None, None, Some(1), Some(1), None], [[], [2, 3], [], [], []])
  }

  /** The test automaton is well formed: a tree whose only composite has an initial
      substate, user ids 1..5 each naming one state object, and every object in the pool. */
  lemma TestTreeWellFormed()
    ensures TestTree().Valid() && TestTree().Complete() && |TestTree().defs| == |ALL_STATES|
    ensures (forall k | 0 <= k < |ALL_STATES| :: ALL_STATES[k] < |TestTree().defs|)
    ensures PoolCoversTree(TestTree(), ALL_STATES)
  {
    TestTreeShape();
    TestPoolCoversTree();
  }

  lemma TestTreeShape()
    ensures TestTree().Valid() && TestTree().Complete() && |TestTree().defs| == |ALL_STATES|
  {
  }

  lemma TestPoolCoversTree()
    ensures (forall k | 0 <= k < |ALL_STATES| :: ALL_STATES[k] < |TestTree().defs|)
    ensures PoolCoversTree(TestTree(), ALL_STATES)
  {
    var t := TestTree();
    assert forall i | 0 <= i < 5 :: t.defs[i].id.value == i as i8 + 1;
    assert forall i | 0 <= i < 5 :: ALL_STATES[i] == i;
  }

  /** TestAutomaton::init: setStates(ALL_STATES), no log, b.setSubstates(B_SUBSTATES),
      current state a. Here b's substates are set first, while the state objects are
      assembled, because an automaton is built only over a complete tree; the source
      calls setSubstates after setStates, and the two calls touch disjoint state. */
  method Init() returns (auto: Automaton)
    ensures fresh(auto) && fresh(auto.objects) && auto.Valid()
    ensures auto.objects.Shape() == TestTree() && auto.pool == ALL_STATES
    ensures auto.Snapshot() == Config([0, 0, 0, 0, 0], 0, [], [], false) && !auto.hasLog
  {
    TestTreeWellFormed();
    var objects := TestObjects();
    auto := new Automaton(objects);
    auto.SetStates(ALL_STATES);
  }

  /** The state objects a .. e with b.setSubstates(B_SUBSTATES). */
  method TestObjects() returns (objects: StateObjects)
    ensures fresh(objects) && objects.Valid() && objects.Shape() == TestTree()
    ensures objects.logged == [0, 0, 0, 0, 0] && objects.actions == []
  {
    objects := new StateObjects(TestDefs());
    objects.SetSubstates(1, [2, 3]);
    assert objects.containing == [None, None, Some(1), Some(1), None];
  }

  /** acceptedUserEvents() of each state: C and D add their events to B's. */
  lemma AcceptedEventsOfTestStates()
    ensures TestTree().Valid()
    ensures Accepted(TestTree(), 0) == 0x1 && Accepted(TestTree(), 1) == 0x2
    ensures Accepted(TestTree(), 2) == 0xE && Accepted(TestTree(), 3) == 0x12
    ensures Accepted(TestTree(), 4) == 0
  {
    TestTreeWellFormed();
    var t := TestTree();
    assert Accepted(t, 2) == Union(0x2, 0xC);
    assert Accepted(t, 3) == Union(0x2, 0x10);
  }

  /** The configuration right after init(): in A, nothing run, nothing logged. */
  const START := Config([0, 0, 0, 0, 0], 0, [], [], false)

  /** A configuration of the test automaton with the given current state object. */
  ghost predicate At(t: Tree, s: Config, current: nat) {
    t == TestTree() && |s.logged| == 5 && s.current == current
  }

  /** A --A_B--> B: the transition action, A's exit, then the entry of B and of its
      initial substate C, which becomes current. */
  lemma FromAToB(t: Tree, s: Config, hasLog: bool)
    requires At(t, s, 0)
    ensures Fits(t, ALL_STATES, s)
    ensures Transition(t, ALL_STATES, hasLog, s, EVENT_A_B)
      == s.(current := 2, actions := s.actions + [TransAct(0, 0x1), Action.Exit(0), Entry(1), Entry(2)])
  {
    AToBTraces();
    assert [TransAct(0, 0x1)] + [Action.Exit(0)] + [Entry(1), Entry(2)]
      == [TransAct(0, 0x1), Action.Exit(0), Entry(1), Entry(2)];
    TestMove(t, s, hasLog, EVENT_A_B, 1, [TransAct(0, 0x1)], [Action.Exit(0)], [Entry(1), Entry(2)], 2);
  }

  /** A move of the test automaton from its current state to another simple state, given
      the transition actions, the exit chain and the entry chain it takes. */
  lemma TestMove(t: Tree, s: Config, hasLog: bool, e: Event, target: nat,
                 ta: seq<Action>, ex: seq<Action>, en: seq<Action>, landed: nat)
    requires At(t, s, s.current) && s.current < 5 && target < 5 && target != s.current
    requires TestTree().Valid() && TestTree().Complete() && TestTree().defs[s.current].kind.Simple?
    requires Target(TestTree(), s.current, e) == TestTree().defs[target].id
    requires TransActions(TestTree(), s.current, e) == ta
    requires ExitTrace(TestTree(), s.current, TestTree().defs[target].id) == ex
    requires EnterTrace(TestTree(), target) == en && EnterResult(TestTree(), target) == landed
    ensures Fits(t, ALL_STATES, s)
    ensures Transition(t, ALL_STATES, hasLog, s, e) == s.(current := landed, actions := s.actions + (ta + ex + en))
  {
    TestTreeWellFormed();
    MoveStep(t, ALL_STATES, hasLog, s, e, target, ta, ex, en, landed);
  }

  lemma AToBTraces()
    ensures TestTree().Valid() && TestTree().Complete()
    ensures var t := TestTree();
      && Target(t, 0, EVENT_A_B) == t.defs[1].id && TransActions(t, 0, EVENT_A_B) == [TransAct(0, 0x1)]
      && ExitTrace(t, 0, t.defs[1].id) == [Action.Exit(0)]
      && EnterTrace(t, 1) == [Entry(1), Entry(2)] && EnterResult(t, 1) == 2
  {
    TestTreeShape();
    var t := TestTree();
    assert FindHandler(t.defs[0].handlers, 0x1) == Some(Handler(0x1, STATE_B, true));
  }

  /** C --C_C--> C: a self-transition runs only its transition action. */
  lemma FromCToC(t: Tree, s: Config, hasLog: bool)
    requires At(t, s, 2)
    ensures Fits(t, ALL_STATES, s)
    ensures Transition(t, ALL_STATES, hasLog, s, EVENT_C_C) == s.(actions := s.actions + [TransAct(2, 0x4)])
  {
    TestTreeWellFormed();
    assert FindHandler(t.defs[2].handlers, 0x4) == Some(Handler(0x4, STATE_C, true));
    assert Target(t, 2, EVENT_C_C) == t.defs[2].id;
    assert TransActions(t, 2, EVENT_C_C) == [TransAct(2, 0x4)];
    SelfTransitionDoesNothing(t, ALL_STATES, hasLog, s, EVENT_C_C);
  }

  /** C --C_D--> D: within B, so only C is exited and only D entered. */
  lemma FromCToD(t: Tree, s: Config, hasLog: bool)
    requires At(t, s, 2)
    ensures Fits(t, ALL_STATES, s)
    ensures Transition(t, ALL_STATES, hasLog, s, EVENT_C_D)
      == s.(current := 3, actions := s.actions + [Action.Exit(2), Entry(3)])
  {
    CToDTraces();
    assert [] + [Action.Exit(2)] + [Entry(3)] == [Action.Exit(2), Entry(3)];
    TestMove(t, s, hasLog, EVENT_C_D, 3, [], [Action.Exit(2)], [Entry(3)], 3);
  }

  lemma CToDTraces()
    ensures TestTree().Valid() && TestTree().Complete()
    ensures var t := TestTree();
      && Target(t, 2, EVENT_C_D) == t.defs[3].id && TransActions(t, 2, EVENT_C_D) == []
      && ExitTrace(t, 2, t.defs[3].id) == [Action.Exit(2)]
      && EnterTrace(t, 3) == [Entry(3)] && EnterResult(t, 3) == 3
  {
    TestTreeShape();
    var t := TestTree();
    assert FindHandler(t.defs[2].handlers, 0x8) == Some(Handler(0x8, STATE_D, false));
    assert ExitTrace(t, 2, t.defs[3].id) == [Action.Exit(2)] by {
      assert t.substates[1][1] == 3;
      assert StopsExit(t, 1, t.defs[3].id);
    }
  }

  /** D --D_E--> E: leaves B, so D and then B are exited before E is entered. */
  lemma FromDToE(t: Tree, s: Config, hasLog: bool)
    requires At(t, s, 3)
    ensures Fits(t, ALL_STATES, s)
    ensures Transition(t, ALL_STATES, hasLog, s, EVENT_D_E)
      == s.(current := 4, actions := s.actions + [Action.Exit(3), Action.Exit(1), Entry(4)])
  {
    DToETraces();
    assert [] + [Action.Exit(3), Action.Exit(1)] + [Entry(4)] == [Action.Exit(3), Action.Exit(1), Entry(4)];
    TestMove(t, s, hasLog, EVENT_D_E, 4, [], [Action.Exit(3), Action.Exit(1)], [Entry(4)], 4);
  }

  lemma DToETraces()
    ensures TestTree().Valid() && TestTree().Complete()
    ensures var t := TestTree();
      && Target(t, 3, EVENT_D_E) == t.defs[4].id && TransActions(t, 3, EVENT_D_E) == []
      && ExitTrace(t, 3, t.defs[4].id) == [Action.Exit(3), Action.Exit(1)]
      && EnterTrace(t, 4) == [Entry(4)] && EnterResult(t, 4) == 4
  {
    TestTreeShape();
    var t := TestTree();
    assert FindHandler(t.defs[3].handlers, 0x10) == Some(Handler(0x10, STATE_E, false));
    assert ExitTrace(t, 3, t.defs[4].id) == [Action.Exit(3), Action.Exit(1)] by {
      assert !StopsExit(t, 1, t.defs[4].id) by {
        assert t.substates[1] == [2, 3];
      }
    }
  }

  /** D --B_A--> A: D does not handle B_A, its containing state B does; D and B are exited. */
  lemma FromDToA(t: Tree, s: Config, hasLog: bool)
    requires At(t, s, 3)
    ensures Fits(t, ALL_STATES, s)
    ensures Transition(t, ALL_STATES, hasLog, s, EVENT_B_A)
      == s.(current := 0, actions := s.actions + [Action.Exit(3), Action.Exit(1), Entry(0)])
  {
    DToATraces();
    assert [] + [Action.Exit(3), Action.Exit(1)] + [Entry(0)] == [Action.Exit(3), Action.Exit(1), Entry(0)];
    TestMove(t, s, hasLog, EVENT_B_A, 0, [], [Action.Exit(3), Action.Exit(1)], [Entry(0)], 0);
  }

  lemma DToATraces()
    ensures TestTree().Valid() && TestTree().Complete()
    ensures var t := TestTree();
      && Target(t, 3, EVENT_B_A) == t.defs[0].id && TransActions(t, 3, EVENT_B_A) == []
      && ExitTrace(t, 3, t.defs[0].id) == [Action.Exit(3), Action.Exit(1)]
      && EnterTrace(t, 0) == [Entry(0)] && EnterResult(t, 0) == 0
  {
    TestTreeShape();
    var t := TestTree();
    assert FindHandler(t.defs[3].handlers, 0x2) == None;
    assert FindHandler(t.defs[1].handlers, 0x2) == Some(Handler(0x2, STATE_A, false));
    assert ExitTrace(t, 3, t.defs[0].id) == [Action.Exit(3), Action.Exit(1)] by {
      assert !StopsExit(t, 1, t.defs[0].id) by {
        assert t.substates[1] == [2, 3];
      }
    }
  }

  /** B_A in C: C has no branch for it, so B answers A; C and then B exit, A is entered. */
  lemma FromCToA(t: Tree, s: Config, hasLog: bool)
    requires At(t, s, 2)
    ensures Fits(t, ALL_STATES, s)
    ensures Transition(t, ALL_STATES, hasLog, s, EVENT_B_A)
      == s.(current := 0, actions := s.actions + [Action.Exit(2), Action.Exit(1), Entry(0)])
  {
    CToATraces();
    assert [] + [Action.Exit(2), Action.Exit(1)] + [Entry(0)] == [Action.Exit(2), Action.Exit(1), Entry(0)];
    TestMove(t, s, hasLog, EVENT_B_A, 0, [], [Action.Exit(2), Action.Exit(1)], [Entry(0)], 0);
  }

  lemma CToATraces()
    ensures TestTree().Valid() && TestTree().Complete()
    ensures var t := TestTree();
      && Target(t, 2, EVENT_B_A) == t.defs[0].id && TransActions(t, 2, EVENT_B_A) == []
      && ExitTrace(t, 2, t.defs[0].id) == [Action.Exit(2), Action.Exit(1)]
      && EnterTrace(t, 0) == [Entry(0)] && EnterResult(t, 0) == 0
  {
    TestTreeShape();
    var t := TestTree();
    assert FindHandler(t.defs[2].handlers, 0x2) == None;
    assert FindHandler(t.defs[1].handlers, 0x2) == Some(Handler(0x2, STATE_A, false));
    assert ExitTrace(t, 2, t.defs[0].id) == [Action.Exit(2), Action.Exit(1)] by {
      assert !StopsExit(t, 1, t.defs[0].id) by {
        assert t.substates[1] == [2, 3];
      }
    }
  }

  /** E accepts nothing: A_B in E is illegal; with a log attached it is logged once,
      as message 30 with E's id and the event. */
  lemma IllegalInE(t: Tree, s: Config)
    requires At(t, s, 4) && s.logged[4] == 0
    ensures Fits(t, ALL_STATES, s)
    ensures var s1 := Transition(t, ALL_STATES, true, s, EVENT_A_B);
      && s1 == s.(messages := s.messages + [IllegalTransition(5, 0x1)], logged := s.logged[4 := 0x1])
      && Transition(t, ALL_STATES, true, s1, EVENT_A_B) == s1
  {
    TestTreeWellFormed();
    assert FindHandler(t.defs[4].handlers, 0x1) == None;
    assert Target(t, 4, EVENT_A_B).Is(STATE_UNDEFINED);
    assert TransTrace(t, 4, EVENT_A_B) == [];
    var s1 := Transition(t, ALL_STATES, true, s, EVENT_A_B);
    RejectionSetsBit(t, ALL_STATES, true, s, EVENT_A_B);
    assert Union(0, 0x1) == 0x1;
    RejectionSetsBit(t, ALL_STATES, true, s1, EVENT_A_B);
  }

  /** The test automaton at one of its states: the shape and pool init() set up. */
  ghost predicate TestAt(auto: Automaton, current: nat)
    reads auto, auto.objects
  {
    && auto.Valid() && auto.objects.Shape() == TestTree() && auto.pool == ALL_STATES
    && |auto.objects.logged| == 5 && auto.current == current
  }

  /** A_B taken by the automaton in A. */
  method TakeAToB(auto: Automaton)
    requires TestAt(auto, 0)
    modifies auto, auto.objects
    ensures TestAt(auto, 2) && auto.hasLog == old(auto.hasLog)
    ensures auto.Snapshot() == old(auto.Snapshot()).(current := 2,
      actions := old(auto.objects.actions) + [TransAct(0, 0x1), Action.Exit(0), Entry(1), Entry(2)])
  {
    FromAToB(auto.objects.Shape(), auto.Snapshot(), auto.hasLog);
    auto.Transition(EVENT_A_B);
  }

  /** C_C taken by the automaton in C. */
  method TakeCToC(auto: Automaton)
    requires TestAt(auto, 2)
    modifies auto, auto.objects
    ensures TestAt(auto, 2) && auto.hasLog == old(auto.hasLog)
    ensures auto.Snapshot() == old(auto.Snapshot()).(actions := old(auto.objects.actions) + [TransAct(2, 0x4)])
  {
    FromCToC(auto.objects.Shape(), auto.Snapshot(), auto.hasLog);
    auto.Transition(EVENT_C_C);
  }

  /** C_D taken by the automaton in C. */
  method TakeCToD(auto: Automaton)
    requires TestAt(auto, 2)
    modifies auto, auto.objects
    ensures TestAt(auto, 3) && auto.hasLog == old(auto.hasLog)
    ensures auto.Snapshot() == old(auto.Snapshot()).(current := 3,
      actions := old(auto.objects.actions) + [Action.Exit(2), Entry(3)])
  {
    FromCToD(auto.objects.Shape(), auto.Snapshot(), auto.hasLog);
    auto.Transition(EVENT_C_D);
  }

  /** D_E taken by the automaton in D. */
  method TakeDToE(auto: Automaton)
    requires TestAt(auto, 3)
    modifies auto, auto.objects
    ensures TestAt(auto, 4) && auto.hasLog == old(auto.hasLog)
    ensures auto.Snapshot() == old(auto.Snapshot()).(current := 4,
      actions := old(auto.objects.actions) + [Action.Exit(3), Action.Exit(1), Entry(4)])
  {
    FromDToE(auto.objects.Shape(), auto.Snapshot(), auto.hasLog);
    auto.Transition(EVENT_D_E);
  }

  /** The test automaton driven through A_B, C_C, C_D and D_E: it ends in E having run
      exactly the transition, exit and entry actions the diagram prescribes. */
  method RunToE() returns (auto: Automaton)
    ensures fresh(auto) && auto.Valid() && auto.current == 4 && auto.messages == [] && !auto.halted
    ensures auto.objects.actions == [TransAct(0, 0x1), Action.Exit(0), Entry(1), Entry(2)]
      + [TransAct(2, 0x4)] + [Action.Exit(2), Entry(3)] + [Action.Exit(3), Action.Exit(1), Entry(4)]
  {
    auto := Init();
    TakeAToB(auto);
    TakeCToC(auto);
    TakeCToD(auto);
    TakeDToE(auto);
  }
}
