/** The state objects and the state automaton as mutable objects. The state objects
    live in one arena (StateObjects), numbered, with the pointer fields
    containingState, substates and illegalTransitionLogged kept as index fields;
    every method is proved against the functions of module StateChart. */
module States {
  import opened Basics
  import opened Events
  import opened StateChart

  /** All state objects of one automaton, and the user actions they have run. */
  class StateObjects {
    /** The user-defined part of every state object. */
    const defs: seq<StateDef>
    /** containingState of every state object (None for NULL). */
    var containing: seq<Option<nat>>
    /** substates of every composite (empty for a simple state or before setSubstates). */
    var substates: seq<seq<nat>>
    /** illegalTransitionLogged of every state object. */
    var logged: seq<bv32>
    /** The entry, exit and transition actions run so far, in order. */
    var actions: seq<Action>

    function Shape(): Tree
      reads this
    {
      Tree(defs, containing, substates)
    }

    ghost predicate Valid()
      reads this
    {
      Shape().Valid() && |logged| == |defs|
    }

    /** Freshly constructed state objects: no containing state, no substates, no
        illegal transition logged, no action run. */
    constructor (defs: seq<StateDef>)
      ensures Valid()
      ensures this.defs == defs && actions == []
      ensures containing == seq(|defs|, _ => None) && substates == seq(|defs|, _ => [])
      ensures logged == seq(|defs|, _ => EVENT_SET_NONE)
    {
      this.defs := defs;
      containing := seq(|defs|, _ => None);
      substates := seq(|defs|, _ => []);
      logged := seq(|defs|, _ => EVENT_SET_NONE);
      actions := [];
    }

    /** AbstractCompositeState::setSubstates: stores the substates and makes `comp`
        the containing state of each of them. */
    method SetSubstates(comp: nat, subs: seq<nat>)
      requires Valid() && comp < |defs| && defs[comp].kind.Composite?
      requires forall k | 0 <= k < |subs| :: comp < subs[k] < |defs|
      modifies this
      ensures Valid()
      ensures substates == old(substates)[comp := subs]
      ensures |containing| == |defs|
      ensures forall j | 0 <= j < |defs| :: containing[j] == if j in subs then Some(comp) else old(containing[j])
      ensures logged == old(logged) && actions == old(actions)
    {
      substates := substates[comp := subs];
      var k := 0;
      while k < |subs|
        invariant 0 <= k <= |subs| && Valid()
        invariant substates == old(substates)[comp := subs]
        invariant |containing| == |defs|
        invariant forall j | 0 <= j < |defs| ::
          containing[j] == if j in subs[..k] then Some(comp) else old(containing[j])
        invariant logged == old(logged) && actions == old(actions)
      {
        containing := containing[subs[k] := Some(comp)];
        assert subs[..k + 1] == subs[..k] + [subs[k]];
        k := k + 1;
      }
      assert subs[..k] == subs;
    }

    /** AbstractCompositeState::initialSubstate. */
    method InitialSubstate(i: nat) returns (s: nat)
      requires Valid() && Shape().Complete() && i < |defs| && defs[i].kind.Composite?
      ensures i < s < |defs| && s == substates[i][0]
    {
      s := substates[i][0];
    }

    /** acceptedUserEvents() of state object i: its own events, or its containing
        state's (EVENT_SET_NONE at a root) with its extra events ORed in. */
    method AcceptedUserEvents(i: nat) returns (events: bv32)
      requires Valid() && i < |defs|
      ensures events == Accepted(Shape(), i)
      decreases i
    {
      if defs[i].accepts.Own? {
        events := defs[i].accepts.events;
      } else {
        if containing[i].Some? {
          var up := AcceptedUserEvents(containing[i].value);
          events := Union(up, defs[i].accepts.extra);
        } else {
          events := Union(EVENT_SET_NONE, defs[i].accepts.extra);
        }
      }
    }

    /** The default eval(). */
    method Eval(i: nat) returns (events: bv32)
      requires Valid() && i < |defs|
      ensures events == StateChart.Eval(Shape(), i)
    {
      events := AcceptedUserEvents(i);
    }

    method EntryAction(i: nat)
      modifies this
      ensures actions == old(actions) + [Entry(i)]
      ensures Shape() == old(Shape()) && logged == old(logged)
    {
      actions := actions + [Entry(i)];
    }

    method ExitAction(i: nat)
      modifies this
      ensures actions == old(actions) + [Action.Exit(i)]
      ensures Shape() == old(Shape()) && logged == old(logged)
    {
      actions := actions + [Action.Exit(i)];
    }

    /** transAction(event) of state object i: runs the user transition action, if any,
        and answers the target (STATE_UNDEFINED for an event it does not handle). */
    method TransAction(i: nat, e: Event) returns (next: StateID)
      requires i < |defs|
      modifies this
      ensures next == LocalTarget(defs[i], e)
      ensures actions == old(actions) + if RunsAction(defs[i], e) then [TransAct(i, e.value)] else []
      ensures Shape() == old(Shape()) && logged == old(logged)
    {
      var hs := defs[i].handlers;
      var k := 0;
      while k < |hs|
        invariant 0 <= k <= |hs|
        invariant FindHandler(hs, e.value) == FindHandler(hs[k..], e.value)
      {
        assert hs[k..][1..] == hs[k + 1..];
        if hs[k].event == e.value {
          if hs[k].hasAction {
            actions := actions + [TransAct(i, e.value)];
          }
          return hs[k].target;
        }
        k := k + 1;
      }
      next := STATE_UNDEFINED;
    }

    /** enter(): the entry action, then (for a composite) enter() of the initial
        substate; answers the id of the simple state reached. */
    method Enter(i: nat) returns (r: StateID)
      requires Valid() && Shape().Complete() && i < |defs|
      modifies this
      ensures Shape() == old(Shape()) && logged == old(logged)
      ensures r == defs[EnterResult(Shape(), i)].id
      ensures actions == old(actions) + EnterTrace(Shape(), i)
      decreases |defs| - i
    {
      EntryAction(i);
      if defs[i].kind.Simple? {
        r := defs[i].id;
      } else {
        var init := InitialSubstate(i);
        r := Enter(init);
      }
    }

    /** trans(event), dispatched on the variant of state object i. */
    method Trans(i: nat, e: Event) returns (next: StateID)
      requires Valid() && i < |defs|
      modifies this
      ensures Shape() == old(Shape()) && logged == old(logged)
      ensures next == Target(Shape(), i, e)
      ensures actions == old(actions) + TransTrace(Shape(), i, e)
      decreases i, 2
    {
      if defs[i].kind.Simple? {
        next := SimpleTrans(i, e);
      } else {
        next := Delegate(i, e);
      }
    }

    /** The part both trans() variants share, and all of AbstractCompositeState::trans:
        this state's transAction, and the containing state's trans() when that answers
        STATE_UNDEFINED; no exit. */
    method Delegate(i: nat, e: Event) returns (next: StateID)
      requires Valid() && i < |defs|
      modifies this
      ensures Shape() == old(Shape()) && logged == old(logged)
      ensures next == Target(Shape(), i, e)
      ensures actions == old(actions) + TransActions(Shape(), i, e)
      decreases i, 0
    {
      ghost var t := Shape();
      next := TransAction(i, e);
      if next.Is(STATE_UNDEFINED) && containing[i].Some? {
        var p := containing[i].value;
        next := Trans(p, e);
        assert TransTrace(t, p, e) == TransActions(t, p, e);
      }
    }

    /** AbstractSimpleState::trans: as for a composite, then exit() when the answer is
        a real state other than this one. */
    method SimpleTrans(i: nat, e: Event) returns (next: StateID)
      requires Valid() && i < |defs| && defs[i].kind.Simple?
      modifies this
      ensures Shape() == old(Shape()) && logged == old(logged)
      ensures next == Target(Shape(), i, e)
      ensures actions == old(actions) + TransTrace(Shape(), i, e)
      decreases i, 1
    {
      ghost var t := Shape();
      next := Delegate(i, e);
      ghost var mid := actions;
      if !next.Is(STATE_SAME) && !next.Is(defs[i].id) && !next.Is(STATE_UNDEFINED) {
        Exit(i, e, next);
        assert actions == mid + ExitTrace(t, i, next);
      }
    }

    /** exit(event, next): a composite that lists `next` among its substates stops; any
        other state runs its exit action and passes on to its containing state. */
    method Exit(i: nat, e: Event, next: StateID)
      requires Valid() && i < |defs|
      modifies this
      ensures Shape() == old(Shape()) && logged == old(logged)
      ensures actions == old(actions) + ExitTrace(Shape(), i, next)
      decreases i
    {
      if defs[i].kind.Composite? {
        var k := 0;
        while k < |substates[i]|
          invariant 0 <= k <= |substates[i]|
          invariant forall j | 0 <= j < k :: !defs[substates[i][j]].id.Is(next)
        {
          if defs[substates[i][k]].id.Is(next) {
            return;
          }
          k := k + 1;
        }
      }
      ExitAction(i);
      if containing[i].Some? {
        Exit(containing[i].value, e, next);
      }
    }

    /** `illegalTransitionLogged |= event` on state object i. */
    method MarkLogged(i: nat, e: Event)
      requires i < |logged|
      modifies this
      ensures logged == old(logged)[i := Union(old(logged[i]), e.value)]
      ensures Shape() == old(Shape()) && actions == old(actions)
    {
      logged := logged[i := Union(logged[i], e.value)];
    }
  }

  /** AbstractStateAutomaton: the states array, the current state and the optional log. */
  class Automaton {
    const objects: StateObjects
    /** The `states` array given to setStates (indices of state objects). */
    var pool: seq<nat>
    var current: nat
    /** Whether setLog attached a log. */
    var hasLog: bool
    /** The messages sent to the log. */
    var messages: seq<Message>
    /** Whether the automaton stopped on a fatal error (log_S_O_S / abort). */
    var halted: bool

    ghost predicate Valid()
      reads this, objects
    {
      && objects.Valid() && objects.Shape().Complete()
      && current < |objects.defs|
      && forall k | 0 <= k < |pool| :: pool[k] < |objects.defs|
    }

    function Snapshot(): Config
      reads this, objects
    {
      Config(objects.logged, current, objects.actions, messages, halted)
    }

    /** An automaton over fully assembled state objects. The source leaves currentState
        unset until setStates receives a non-empty array; here it is the first state
        object until then. */
    constructor (objects: StateObjects)
      requires objects.Valid() && objects.Shape().Complete() && |objects.defs| > 0
      ensures Valid() && this.objects == objects
      ensures pool == [] && current == 0 && !hasLog && messages == [] && !halted
    {
      this.objects := objects;
      pool := [];
      current := 0;
      hasLog := false;
      messages := [];
      halted := false;
    }

    /** setStates: the states array; the first entry becomes current. */
    method SetStates(states: seq<nat>)
      requires Valid() && forall k | 0 <= k < |states| :: states[k] < |objects.defs|
      modifies this
      ensures Valid()
      ensures pool == states && current == if states != [] then states[0] else old(current)
      ensures hasLog == old(hasLog) && messages == old(messages) && halted == old(halted)
    {
      pool := states;
      if |states| > 0 {
        current := states[0];
      }
    }

    /** setLog (attach) or setLog(NULL) (detach). */
    method SetLog(attached: bool)
      modifies this
      ensures hasLog == attached
      ensures pool == old(pool) && current == old(current) && messages == old(messages) && halted == old(halted)
    {
      hasLog := attached;
    }

    method AcceptedUserEvents() returns (events: bv32)
      requires Valid()
      ensures events == Accepted(objects.Shape(), current)
    {
      events := objects.AcceptedUserEvents(current);
    }

    method Evaluate() returns (events: bv32)
      requires Valid()
      ensures events == Eval(objects.Shape(), current)
    {
      events := objects.Eval(current);
    }

    /** state(id): the first pool entry whose id is `id`; for an unknown id a last
        message goes to the log (when one is attached) and the automaton halts. */
    method StateOf(id: StateID) returns (r: Option<nat>)
      requires Valid()
      modifies this
      ensures pool == old(pool) && current == old(current) && hasLog == old(hasLog)
      ensures r == Lookup(objects.Shape(), pool, id)
      ensures r.Some? ==> messages == old(messages) && halted == old(halted)
      ensures r.None? ==> Snapshot() == Fault(old(Snapshot()), hasLog, id)
    {
      var k := 0;
      while k < |pool|
        invariant 0 <= k <= |pool|
        invariant Lookup(objects.Shape(), pool, id) == Lookup(objects.Shape(), pool[k..], id)
      {
        assert pool[k..][1..] == pool[k + 1..];
        if objects.defs[pool[k]].id.Is(id) {
          return Some(pool[k]);
        }
        k := k + 1;
      }
      if hasLog {
        messages := messages + [UnknownState(id.value)];
      }
      halted := true;
      r := None;
    }

    /** stateChanged: the default does nothing. */
    method StateChanged(from: StateID, e: Event, to: StateID)
    {
    }

    /** The illegal-transition branch of transition(): log the event once per state. */
    method RejectEvent(oldId: StateID, e: Event)
      requires Valid()
      modifies this, objects
      ensures Valid() && pool == old(pool) && hasLog == old(hasLog) && objects.Shape() == old(objects.Shape())
      ensures objects.actions == old(objects.actions)
      ensures Snapshot() == Reject(hasLog, old(Snapshot()), oldId, e)
    {
      var bits := new EventSet.FromEvents(objects.logged[current]);
      var seen := bits.Contains(e);
      if !seen {
        if hasLog {
          messages := messages + [IllegalTransition(oldId.value, e.value)];
        }
        objects.MarkLogged(current, e);
      }
    }

    /** The state-change branch of transition(): look the target up, enter it, and
        make the simple state it ends in current. */
    method ChangeTo(oldId: StateID, e: Event, next: StateID)
      requires Valid()
      modifies this, objects
      ensures Valid() && pool == old(pool) && hasLog == old(hasLog) && objects.Shape() == old(objects.Shape())
      ensures Snapshot() == Move(objects.Shape(), pool, hasLog, old(Snapshot()), next)
    {
      ghost var t := objects.Shape();
      ghost var s0 := Snapshot();
      var target := StateOf(next);
      if target.None? {
        return;
      }
      current := target.value;
      var entered := objects.Enter(current);
      assert Snapshot() == s0.(actions := s0.actions + EnterTrace(t, target.value), current := target.value);
      var landed := StateOf(entered);
      if landed.None? {
        return;
      }
      current := landed.value;
      StateChanged(oldId, e, entered);
    }

    /** transition(event). */
    method Transition(e: Event)
      requires Valid()
      modifies this, objects
      ensures Valid()
      ensures pool == old(pool) && hasLog == old(hasLog) && objects.Shape() == old(objects.Shape())
      ensures Snapshot() == StateChart.Transition(objects.Shape(), pool, hasLog, old(Snapshot()), e)
    {
      ghost var t := objects.Shape();
      ghost var s0 := Snapshot();
      var oldId := objects.defs[current].id;
      var next := objects.Trans(current, e);
      assert Snapshot() == s0.(actions := s0.actions + TransTrace(t, s0.current, e));
      if next.Is(STATE_UNDEFINED) {
        TransitionOnUndefined(t, pool, hasLog, s0, e);
        RejectEvent(oldId, e);
      } else if !next.Is(STATE_SAME) && !oldId.Is(next) {
        TransitionOnMove(t, pool, hasLog, s0, e);
        ChangeTo(oldId, e, next);
      } else {
        TransitionOnStay(t, pool, hasLog, s0, e);
      }
    }
  }
}
