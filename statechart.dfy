/** Specification of the hierarchical state engine as functions over a snapshot of
    the containment tree: what trans(), enter() and exit() return and which user
    actions they run, in which order, and what one automaton transition does.
    The classes in module States are proved against these functions. */
module StateChart {
  import opened Basics
  import opened Events

  datatype Kind = Simple | Composite

  /** The shape of a state's acceptedUserEvents(). The default delegates to the
      containing state and adds nothing (Inherited(0)); an override either ORs its
      own events into the containing state's (Inherited) or replaces them (Own). */
  datatype Accepts = Own(events: bv32) | Inherited(extra: bv32)

  /** One `if (event == ...)` branch of a state's transAction: the target it returns,
      and whether it also runs a user transition action. */
  datatype Handler = Handler(event: bv32, target: StateID, hasAction: bool)

  /** The user-defined part of a state class: its id, its variant, its
      acceptedUserEvents() and the branches of its transAction(), tested in order
      (an event no branch tests gets the default answer STATE_UNDEFINED). */
  datatype StateDef = StateDef(id: StateID, kind: Kind, accepts: Accepts, handlers: seq<Handler>)

  /** A user action run by the engine on a state object. */
  datatype Action = Entry(state: nat) | Exit(state: nat) | TransAct(state: nat, event: bv32)

  /** Log messages the automaton sends (StateMessageEnum). */
  datatype Message = IllegalTransition(state: i8, event: bv32) | UnknownState(state: i8)

  const MSG_ILLEGAL_TRANS: u8 := 30
  const MSG_UNKNOWN_STATE: u8 := 31

  /** The state objects, numbered; `containing` and `substates` are the fields
      setSubstates() writes. */
  datatype Tree = Tree(defs: seq<StateDef>, containing: seq<Option<nat>>, substates: seq<seq<nat>>) {

    /** The containment graph is a tree whose objects are numbered so that a
        containing state comes before its substates; containing states are
        composite and simple states have no substates. */
    ghost predicate Valid() {
      && |containing| == |defs|
      && |substates| == |defs|
      && (forall i | 0 <= i < |defs| && containing[i].Some? ::
            containing[i].value < i && defs[containing[i].value].kind.Composite?)
      && (forall i, k | 0 <= i < |defs| && 0 <= k < |substates[i]| :: i < substates[i][k] < |defs|)
      && (forall i | 0 <= i < |defs| && defs[i].kind.Simple? :: substates[i] == [])
    }

    /** Every composite state has its substates set, so it has an initial substate. */
    ghost predicate Complete() {
      && |substates| == |defs|
      && forall i | 0 <= i < |defs| && defs[i].kind.Composite? :: substates[i] != []
    }
  }

  // ---------------------------------------------------------------------------
  // Containment chain

  /** The containment chain of state i: i, its containing state, and so on up to a root. */
  function Chain(t: Tree, i: nat): (c: seq<nat>)
    requires t.Valid() && i < |t.defs|
    ensures |c| >= 1 && c[0] == i
    ensures forall k | 0 <= k < |c| :: c[k] <= i
    ensures forall k | 0 <= k < |c| - 1 :: t.containing[c[k]] == Some(c[k + 1])
    ensures t.containing[c[|c| - 1]].None?
    decreases i
  {
    if t.containing[i].Some? then [i] + Chain(t, t.containing[i].value) else [i]
  }

  // ---------------------------------------------------------------------------
  // acceptedUserEvents() and eval()

  function Accepted(t: Tree, i: nat): bv32
    requires t.Valid() && i < |t.defs|
    decreases i
  {
    match t.defs[i].accepts
    case Own(events) => events
    case Inherited(extra) =>
      Union(if t.containing[i].Some? then Accepted(t, t.containing[i].value) else EVENT_SET_NONE, extra)
  }

  /** The default eval() is acceptedUserEvents(). */
  function Eval(t: Tree, i: nat): bv32
    requires t.Valid() && i < |t.defs|
  {
    Accepted(t, i)
  }

  /** A state whose acceptedUserEvents() is the default one answers with its
      containing state's events, and with none at a root. */
  lemma DefaultAcceptedDelegates(t: Tree, i: nat)
    requires t.Valid() && i < |t.defs| && t.defs[i].accepts == Inherited(EVENT_SET_NONE)
    ensures t.containing[i].None? ==> Accepted(t, i) == EVENT_SET_NONE
    ensures t.containing[i].Some? ==> Accepted(t, i) == Accepted(t, t.containing[i].value)
    ensures Eval(t, i) == Accepted(t, i)
  {
  }

  // ---------------------------------------------------------------------------
  // trans()

  /** The branch of transAction() that an event takes: the first that tests for it. */
  function FindHandler(hs: seq<Handler>, ev: bv32): (r: Option<Handler>)
    ensures r.None? <==> forall k | 0 <= k < |hs| :: hs[k].event != ev
    ensures r.Some? ==> exists k | 0 <= k < |hs| ::
      (hs[k] == r.value && hs[k].event == ev && forall j | 0 <= j < k :: hs[j].event != ev)
  {
    if hs == [] then None
    else if hs[0].event == ev then Some(hs[0])
    else
      var r := FindHandler(hs[1..], ev);
      assert forall k | 1 <= k < |hs| :: hs[k] == hs[1..][k - 1];
      r
  }

  /** transAction(event) of one state. */
  function LocalTarget(d: StateDef, e: Event): StateID {
    match FindHandler(d.handlers, e.value)
    case None => STATE_UNDEFINED
    case Some(h) => h.target
  }

  /** Whether transAction(event) of one state runs a user transition action. */
  predicate RunsAction(d: StateDef, e: Event) {
    var h := FindHandler(d.handlers, e.value);
    h.Some? && h.value.hasAction
  }

  predicate Handles(d: StateDef, e: Event) {
    !LocalTarget(d, e).Is(STATE_UNDEFINED)
  }

  /** The id trans(event) returns: the state's own answer, or its containing
      state's when that answer is STATE_UNDEFINED. */
  function Target(t: Tree, i: nat, e: Event): StateID
    requires t.Valid() && i < |t.defs|
    decreases i
  {
    var local := LocalTarget(t.defs[i], e);
    if !Handles(t.defs[i], e) && t.containing[i].Some? then Target(t, t.containing[i].value, e) else local
  }

  /** The user transition actions trans(event) runs: this state's, then (only if it
      did not handle the event) those of the containing chain. */
  function TransActions(t: Tree, i: nat, e: Event): seq<Action>
    requires t.Valid() && i < |t.defs|
    decreases i
  {
    var d := t.defs[i];
    var here := if RunsAction(d, e) then [TransAct(i, e.value)] else [];
    if !Handles(d, e) && t.containing[i].Some? then here + TransActions(t, t.containing[i].value, e) else here
  }

  /** A simple state leaves itself (and runs exit()) only for a real target that is
      neither STATE_SAME, nor its own id, nor STATE_UNDEFINED; a composite never does. */
  predicate Leaves(d: StateDef, next: StateID) {
    d.kind.Simple? && !next.Is(STATE_SAME) && !next.Is(d.id) && !next.Is(STATE_UNDEFINED)
  }

  /** Every user action trans(event) runs on state i. */
  function TransTrace(t: Tree, i: nat, e: Event): seq<Action>
    requires t.Valid() && i < |t.defs|
  {
    var next := Target(t, i, e);
    TransActions(t, i, e) + if Leaves(t.defs[i], next) then ExitTrace(t, i, next) else []
  }

  /** The innermost state on the containment chain that handles the event decides;
      when no state handles it the answer is STATE_UNDEFINED. */
  lemma {:induction false} InnermostHandlerWins(t: Tree, i: nat, e: Event, k: nat)
    requires t.Valid() && i < |t.defs|
    requires k < |Chain(t, i)|
    requires forall j | 0 <= j < k :: !Handles(t.defs[Chain(t, i)[j]], e)
    ensures Handles(t.defs[Chain(t, i)[k]], e) ==> Target(t, i, e) == LocalTarget(t.defs[Chain(t, i)[k]], e)
    ensures k == |Chain(t, i)| - 1 && !Handles(t.defs[Chain(t, i)[k]], e) ==> Target(t, i, e).Is(STATE_UNDEFINED)
    decreases i
  {
    var c := Chain(t, i);
    if k > 0 {
      assert t.containing[i].Some?;
      var p := t.containing[i].value;
      assert c == [i] + Chain(t, p);
      assert !Handles(t.defs[c[0]], e);
      assert Target(t, i, e) == Target(t, p, e);
      forall j | 0 <= j < k - 1 ensures !Handles(t.defs[Chain(t, p)[j]], e) {
        assert Chain(t, p)[j] == c[j + 1];
      }
      InnermostHandlerWins(t, p, e, k - 1);
      assert Chain(t, p)[k - 1] == c[k];
    } else if k == |c| - 1 {
      assert t.containing[i].None?;
    }
  }

  /** Only the states that answered STATE_UNDEFINED pass the event on: the transition
      actions come from the chain states up to the handler, inner first. */
  lemma {:induction false} TransActionsFollowChain(t: Tree, i: nat, e: Event)
    requires t.Valid() && i < |t.defs|
    ensures forall a | a in TransActions(t, i, e) :: a.TransAct? && a.event == e.value && a.state in Chain(t, i)
    ensures |TransActions(t, i, e)| <= |Chain(t, i)|
    decreases i
  {
    if !Handles(t.defs[i], e) && t.containing[i].Some? {
      TransActionsFollowChain(t, t.containing[i].value, e);
    }
  }

  // ---------------------------------------------------------------------------
  // exit()

  /** Whether a state listed in composite j's substates has the id `next`. */
  predicate HasSubstate(t: Tree, j: nat, next: StateID)
    requires t.Valid() && j < |t.defs|
  {
    exists k | 0 <= k < |t.substates[j]| :: t.defs[t.substates[j][k]].id.Is(next)
  }

  /** exit() stops at state j: j is a composite that has `next` as an immediate substate. */
  predicate StopsExit(t: Tree, j: nat, next: StateID)
    requires t.Valid() && j < |t.defs|
  {
    t.defs[j].kind.Composite? && HasSubstate(t, j, next)
  }

  /** The exit actions exit(event, next) runs, starting at state i. */
  function ExitTrace(t: Tree, i: nat, next: StateID): seq<Action>
    requires t.Valid() && i < |t.defs|
    decreases i
  {
    if StopsExit(t, i, next) then []
    else [Exit(i)] + if t.containing[i].Some? then ExitTrace(t, t.containing[i].value, next) else []
  }

  function Exits(s: seq<nat>): (r: seq<Action>)
    ensures |r| == |s| && forall k | 0 <= k < |s| :: r[k] == Exit(s[k])
  {
    seq(|s|, k requires 0 <= k < |s| => Exit(s[k]))
  }

  /** exit() runs the exit actions of the containment chain inner-to-outer, and
      stops, without exiting it, at the first composite that has the target as an
      immediate substate (or at the root when there is none). */
  lemma {:induction false} ExitStopsAtContainer(t: Tree, i: nat, next: StateID, m: nat)
    requires t.Valid() && i < |t.defs|
    requires m <= |Chain(t, i)|
    requires forall j | 0 <= j < m :: !StopsExit(t, Chain(t, i)[j], next)
    requires m < |Chain(t, i)| ==> StopsExit(t, Chain(t, i)[m], next)
    ensures ExitTrace(t, i, next) == Exits(Chain(t, i)[..m])
    decreases i
  {
    var c := Chain(t, i);
    if m == 0 {
      assert StopsExit(t, c[0], next);
    } else if t.containing[i].Some? {
      var p := t.containing[i].value;
      var cp := Chain(t, p);
      assert c == [i] + cp;
      assert ExitTrace(t, i, next) == [Exit(i)] + ExitTrace(t, p, next) by {
        assert !StopsExit(t, c[0], next);
      }
      assert ExitTrace(t, p, next) == Exits(cp[..m - 1]) by {
        forall j | 0 <= j < m - 1 ensures !StopsExit(t, cp[j], next) {
          assert cp[j] == c[j + 1];
        }
        assert m - 1 < |cp| ==> cp[m - 1] == c[m];
        ExitStopsAtContainer(t, p, next, m - 1);
      }
      PrefixCons(i, cp, m);
      ExitsCons(i, cp[..m - 1]);
    } else {
      assert c == [i];
      assert ExitTrace(t, i, next) == [Exit(i)] by {
        assert !StopsExit(t, c[0], next);
      }
      ExitsCons(i, []);
    }
  }

  lemma PrefixCons(i: nat, s: seq<nat>, m: nat)
    requires 0 < m <= |s| + 1
    ensures ([i] + s)[..m] == [i] + s[..m - 1]
  {
  }

  lemma ExitsCons(i: nat, s: seq<nat>)
    ensures Exits([i] + s) == [Exit(i)] + Exits(s)
  {
  }

  // ---------------------------------------------------------------------------
  // enter()

  /** The simple state enter() on state i ends in: the initial substate, recursively. */
  function EnterResult(t: Tree, i: nat): (r: nat)
    requires t.Valid() && t.Complete() && i < |t.defs|
    ensures i <= r < |t.defs| && t.defs[r].kind.Simple?
    decreases |t.defs| - i
  {
    if t.defs[i].kind.Simple? then i else EnterResult(t, t.substates[i][0])
  }

  /** The entry actions enter() on state i runs. */
  function EnterTrace(t: Tree, i: nat): seq<Action>
    requires t.Valid() && t.Complete() && i < |t.defs|
    decreases |t.defs| - i
  {
    [Entry(i)] + if t.defs[i].kind.Simple? then [] else EnterTrace(t, t.substates[i][0])
  }

  /** enter() runs entry actions only, outer-to-inner: first state i, then each time the
      initial substate of the previous one, through composites, ending with the
      simple state it returns. */
  lemma {:induction false} EnterDescends(t: Tree, i: nat)
    requires t.Valid() && t.Complete() && i < |t.defs|
    ensures var tr := EnterTrace(t, i);
      && |tr| >= 1
      && tr[0] == Entry(i)
      && tr[|tr| - 1] == Entry(EnterResult(t, i))
      && (forall k | 0 <= k < |tr| :: tr[k].Entry? && i <= tr[k].state <= EnterResult(t, i))
      && (forall k | 0 <= k < |tr| - 1 ::
            t.defs[tr[k].state].kind.Composite? && tr[k + 1].state == t.substates[tr[k].state][0])
    decreases |t.defs| - i
  {
    if t.defs[i].kind.Composite? {
      var s := t.substates[i][0];
      EnterDescends(t, s);
      var tr := EnterTrace(t, i);
      assert tr == [Entry(i)] + EnterTrace(t, s);
      forall k | 0 <= k < |tr| - 1
        ensures t.defs[tr[k].state].kind.Composite? && tr[k + 1].state == t.substates[tr[k].state][0]
      {
        if k > 0 {
          assert tr[k] == EnterTrace(t, s)[k - 1];
        }
      }
    }
  }

  // ---------------------------------------------------------------------------
  // state(id) and the automaton's transition()

  /** state(id): the first state of the pool whose id is `id`. */
  function Lookup(t: Tree, pool: seq<nat>, id: StateID): (r: Option<nat>)
    requires forall k | 0 <= k < |pool| :: pool[k] < |t.defs|
    ensures r.None? <==> forall k | 0 <= k < |pool| :: !t.defs[pool[k]].id.Is(id)
    ensures r.Some? ==> exists k | 0 <= k < |pool| ::
      (pool[k] == r.value && t.defs[pool[k]].id.Is(id) && forall j | 0 <= j < k :: !t.defs[pool[j]].id.Is(id))
  {
    if pool == [] then None
    else if t.defs[pool[0]].id.Is(id) then Some(pool[0])
    else
      var r := Lookup(t, pool[1..], id);
      assert forall k | 1 <= k < |pool| :: pool[k] == pool[1..][k - 1];
      r
  }

  /** What the automaton holds between transitions: the illegal-transition bits of every
      state object, the current state, the user actions run so far, the log messages
      sent so far, and whether it halted on a fatal error. */
  datatype Config = Config(logged: seq<bv32>, current: nat, actions: seq<Action>, messages: seq<Message>, halted: bool)

  ghost predicate Fits(t: Tree, pool: seq<nat>, s: Config) {
    && t.Valid() && t.Complete()
    && |s.logged| == |t.defs| && s.current < |t.defs|
    && forall k | 0 <= k < |pool| :: pool[k] < |t.defs|
  }

  /** Unknown state id: a last message to the log (when there is one), then the halt. */
  function Fault(s: Config, hasLog: bool, id: StateID): Config {
    s.(messages := s.messages + (if hasLog then [UnknownState(id.value)] else []), halted := true)
  }

  /** A rejected event: logged (when a log is attached) and remembered in the state's
      illegal-transition bits, unless its bit is already set. */
  function Reject(hasLog: bool, s: Config, id: StateID, e: Event): (r: Config)
    requires s.current < |s.logged|
  {
    if Has(s.logged[s.current], e) then s
    else s.(messages := s.messages + (if hasLog then [IllegalTransition(id.value, e.value)] else []),
            logged := s.logged[s.current := Union(s.logged[s.current], e.value)])
  }

  /** A real state change: look the target up, enter it, and make the simple state
      that enter() returns current. */
  function Move(t: Tree, pool: seq<nat>, hasLog: bool, s: Config, next: StateID): (r: Config)
    requires Fits(t, pool, s)
    ensures |r.logged| == |s.logged| && r.current < |t.defs|
  {
    match Lookup(t, pool, next)
    case None => Fault(s, hasLog, next)
    case Some(target) =>
      var entered := t.defs[EnterResult(t, target)].id;
      var s' := s.(actions := s.actions + EnterTrace(t, target), current := target);
      match Lookup(t, pool, entered)
      case None => Fault(s', hasLog, entered)
      case Some(landed) => s'.(current := landed)
  }

  /** AbstractStateAutomaton::transition(event). */
  function Transition(t: Tree, pool: seq<nat>, hasLog: bool, s: Config, e: Event): (r: Config)
    requires Fits(t, pool, s)
    ensures |r.logged| == |s.logged| && r.current < |t.defs|
  {
    var oldId := t.defs[s.current].id;
    var next := Target(t, s.current, e);
    var s' := s.(actions := s.actions + TransTrace(t, s.current, e));
    if next.Is(STATE_UNDEFINED) then Reject(hasLog, s', oldId, e)
    else if next.Is(STATE_SAME) || oldId.Is(next) then s'
    else Move(t, pool, hasLog, s', next)
  }

  /** An event rejected in a state is logged the first time and never again: a second
      rejection of the same (non-zero) event leaves messages and bits as they are. */
  lemma RejectedEventLoggedOnce(t: Tree, pool: seq<nat>, hasLog: bool, s: Config, e: Event)
    requires Fits(t, pool, s) && e.value != 0
    requires Target(t, s.current, e).Is(STATE_UNDEFINED)
    ensures var s1 := Transition(t, pool, hasLog, s, e);
      var s2 := Transition(t, pool, hasLog, s1, e);
      && s1.current == s.current && s2.current == s.current
      && Has(s1.logged[s.current], e)
      && |s1.messages| <= |s.messages| + 1
      && s2.messages == s1.messages && s2.logged == s1.logged
  {
    var s1 := Transition(t, pool, hasLog, s, e);
    RejectionSetsBit(t, pool, hasLog, s, e);
    RejectionSetsBit(t, pool, hasLog, s1, e);
  }

  /** One rejection: the current state stays, the event's bit is set, and a message
      goes out only if the bit was clear. */
  lemma RejectionSetsBit(t: Tree, pool: seq<nat>, hasLog: bool, s: Config, e: Event)
    requires Fits(t, pool, s) && e.value != 0
    requires Target(t, s.current, e).Is(STATE_UNDEFINED)
    ensures var r := Transition(t, pool, hasLog, s, e);
      && Fits(t, pool, r) && r.current == s.current && r.halted == s.halted
      && Has(r.logged[s.current], e)
      && (forall i | 0 <= i < |s.logged| && i != s.current :: r.logged[i] == s.logged[i])
      && (Has(s.logged[s.current], e) ==> r.messages == s.messages && r.logged == s.logged)
      && (!Has(s.logged[s.current], e) ==>
            r.messages == s.messages + if hasLog then [IllegalTransition(t.defs[s.current].id.value, e.value)] else [])
  {
    TransitionOnUndefined(t, pool, hasLog, s, e);
    RejectRemembers(hasLog, s.(actions := s.actions + TransTrace(t, s.current, e)), t.defs[s.current].id, e);
  }

  lemma RejectRemembers(hasLog: bool, s: Config, id: StateID, e: Event)
    requires s.current < |s.logged| && e.value != 0
    ensures var r := Reject(hasLog, s, id, e);
      && r.current == s.current && r.halted == s.halted && r.actions == s.actions
      && |r.logged| == |s.logged| && Has(r.logged[s.current], e)
      && (forall i | 0 <= i < |s.logged| && i != s.current :: r.logged[i] == s.logged[i])
      && (Has(s.logged[s.current], e) ==> r == s)
      && (!Has(s.logged[s.current], e) ==>
            r.messages == s.messages + if hasLog then [IllegalTransition(id.value, e.value)] else [])
  {
    EmptyAndAdded(s.logged[s.current], e);
  }

  lemma TransitionOnUndefined(t: Tree, pool: seq<nat>, hasLog: bool, s: Config, e: Event)
    requires Fits(t, pool, s)
    requires Target(t, s.current, e).Is(STATE_UNDEFINED)
    ensures Transition(t, pool, hasLog, s, e)
      == Reject(hasLog, s.(actions := s.actions + TransTrace(t, s.current, e)), t.defs[s.current].id, e)
  {
  }

  lemma TransitionOnStay(t: Tree, pool: seq<nat>, hasLog: bool, s: Config, e: Event)
    requires Fits(t, pool, s)
    requires var next := Target(t, s.current, e);
      !next.Is(STATE_UNDEFINED) && (next.Is(STATE_SAME) || next.Is(t.defs[s.current].id))
    ensures Transition(t, pool, hasLog, s, e) == s.(actions := s.actions + TransTrace(t, s.current, e))
  {
  }

  /** A self-transition (STATE_SAME or the current id) runs only transition actions:
      no exit, no entry, no message, and the current state stays. */
  lemma SelfTransitionDoesNothing(t: Tree, pool: seq<nat>, hasLog: bool, s: Config, e: Event)
    requires Fits(t, pool, s)
    requires var next := Target(t, s.current, e);
      !next.Is(STATE_UNDEFINED) && (next.Is(STATE_SAME) || next.Is(t.defs[s.current].id))
    ensures var r := Transition(t, pool, hasLog, s, e);
      && r == s.(actions := s.actions + TransActions(t, s.current, e))
      && forall a | a in r.actions[|s.actions|..] :: a.TransAct?
  {
    var r := Transition(t, pool, hasLog, s, e);
    TransActionsFollowChain(t, s.current, e);
    assert r.actions[|s.actions|..] == TransActions(t, s.current, e);
  }

  /** User state ids are non-negative (negative ones are reserved for the pseudo
      states), they name state objects uniquely, and the pool holds every state object. */
  ghost predicate PoolCoversTree(t: Tree, pool: seq<nat>)
    requires forall k | 0 <= k < |pool| :: pool[k] < |t.defs|
  {
    && (forall i | 0 <= i < |t.defs| :: t.defs[i].id.value >= 0)
    && (forall i, j | 0 <= i < |t.defs| && 0 <= j < |t.defs| && t.defs[i].id.Is(t.defs[j].id) :: i == j)
    && (forall i | 0 <= i < |t.defs| :: i in pool)
  }

  lemma {:induction false} LookupFindsOwner(t: Tree, pool: seq<nat>, i: nat)
    requires forall k | 0 <= k < |pool| :: pool[k] < |t.defs|
    requires PoolCoversTree(t, pool) && i < |t.defs|
    ensures Lookup(t, pool, t.defs[i].id) == Some(i)
  {
    assert i in pool;
    var k :| 0 <= k < |pool| && pool[k] == i;
    assert t.defs[pool[k]].id.Is(t.defs[i].id);
  }

  /** A real state change: the transition actions, the exit chain of the old state, then
      the entry chain of the target down to a simple state, which becomes current;
      nothing else in the configuration changes. */
  lemma MoveStep(t: Tree, pool: seq<nat>, hasLog: bool, s: Config, e: Event, target: nat,
                 ta: seq<Action>, ex: seq<Action>, en: seq<Action>, landed: nat)
    requires Fits(t, pool, s) && PoolCoversTree(t, pool)
    requires target < |t.defs| && Target(t, s.current, e).Is(t.defs[target].id) && target != s.current
    requires TransActions(t, s.current, e) == ta
    requires ex == if t.defs[s.current].kind.Simple? then ExitTrace(t, s.current, t.defs[target].id) else []
    requires EnterTrace(t, target) == en && EnterResult(t, target) == landed
    ensures Transition(t, pool, hasLog, s, e) == s.(current := landed, actions := s.actions + (ta + ex + en))
    ensures t.defs[landed].kind.Simple?
  {
    var s' := s.(actions := s.actions + (ta + ex));
    TransitionMoves(t, pool, hasLog, s, e, target, ta, ex);
    MoveFindsTarget(t, pool, hasLog, s', target);
    AppendsAssociate(s.actions, ta + ex, en);
  }

  lemma AppendsAssociate(a: seq<Action>, b: seq<Action>, c: seq<Action>)
    ensures a + b + c == a + (b + c)
  {
  }

  /** A transition to another state: its actions and the exit chain, then the move. */
  lemma TransitionMoves(t: Tree, pool: seq<nat>, hasLog: bool, s: Config, e: Event, target: nat,
                        ta: seq<Action>, ex: seq<Action>)
    requires Fits(t, pool, s) && PoolCoversTree(t, pool)
    requires target < |t.defs| && Target(t, s.current, e).Is(t.defs[target].id) && target != s.current
    requires TransActions(t, s.current, e) == ta
    requires ex == if t.defs[s.current].kind.Simple? then ExitTrace(t, s.current, t.defs[target].id) else []
    ensures Fits(t, pool, s.(actions := s.actions + (ta + ex)))
    ensures Transition(t, pool, hasLog, s, e) == Move(t, pool, hasLog, s.(actions := s.actions + (ta + ex)), t.defs[target].id)
  {
    var next := Target(t, s.current, e);
    TransitionOnMove(t, pool, hasLog, s, e);
    LookupById(t, pool, next, t.defs[target].id);
    ExitTraceById(t, s.current, next, t.defs[target].id);
  }

  /** state(id) compares ids only, so it finds the same state for either of two equal ids. */
  lemma LookupById(t: Tree, pool: seq<nat>, a: StateID, b: StateID)
    requires forall k | 0 <= k < |pool| :: pool[k] < |t.defs|
    requires a.Is(b)
    ensures Lookup(t, pool, a) == Lookup(t, pool, b)
  {
    if pool != [] {
      LookupById(t, pool[1..], a, b);
    }
  }

  /** exit(event, next) compares ids only, so two equal ids give the same exit chain. */
  lemma ExitTraceById(t: Tree, i: nat, a: StateID, b: StateID)
    requires t.Valid() && i < |t.defs| && a.Is(b)
    ensures ExitTrace(t, i, a) == ExitTrace(t, i, b)
    decreases i
  {
    assert HasSubstate(t, i, a) == HasSubstate(t, i, b);
    if t.containing[i].Some? {
      ExitTraceById(t, t.containing[i].value, a, b);
    }
  }

  lemma TransitionOnMove(t: Tree, pool: seq<nat>, hasLog: bool, s: Config, e: Event)
    requires Fits(t, pool, s)
    requires var next := Target(t, s.current, e);
      !next.Is(STATE_UNDEFINED) && !next.Is(STATE_SAME) && !next.Is(t.defs[s.current].id)
    ensures TransTrace(t, s.current, e) == TransActions(t, s.current, e)
      + (if t.defs[s.current].kind.Simple? then ExitTrace(t, s.current, Target(t, s.current, e)) else [])
    ensures Transition(t, pool, hasLog, s, e)
      == Move(t, pool, hasLog, s.(actions := s.actions + TransTrace(t, s.current, e)), Target(t, s.current, e))
  {
  }

  /** With every state in the pool, Move enters the target and lands in the simple
      state enter() returns. */
  lemma MoveFindsTarget(t: Tree, pool: seq<nat>, hasLog: bool, s: Config, target: nat)
    requires Fits(t, pool, s) && PoolCoversTree(t, pool) && target < |t.defs|
    ensures var r := Move(t, pool, hasLog, s, t.defs[target].id);
      r == s.(actions := s.actions + EnterTrace(t, target), current := EnterResult(t, target))
  {
    LookupFindsOwner(t, pool, target);
    LookupFindsOwner(t, pool, EnterResult(t, target));
  }

  /** A transition between two substates of the same composite never runs that
      composite's entry or exit action. */
  lemma ConfinedTransitionSparesContainer(t: Tree, i: nat, c: nat, target: nat)
    requires t.Valid() && t.Complete() && i < |t.defs| && target < |t.defs|
    requires t.defs[i].kind.Simple? && t.containing[i] == Some(c)
    requires target in t.substates[c]
    ensures ExitTrace(t, i, t.defs[target].id) == [Exit(i)]
    ensures Entry(c) !in EnterTrace(t, target)
  {
    var k :| 0 <= k < |t.substates[c]| && t.substates[c][k] == target;
    assert StopsExit(t, c, t.defs[target].id);
    EnterDescends(t, target);
  }
}
