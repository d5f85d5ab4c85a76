/** Identifier value types of the state engine: StateID, Event and the mutable EventSet. */
module Events {

  /** T_State_ID: int8_t */
  newtype i8 = x: int | -128 <= x < 128

  /** A state identifier; the name is for display only. */
  datatype StateID = StateID(value: i8, name: string) {
    /** operator == : compares the numeric id only. */
    predicate Is(other: StateID) {
      value == other.value
    }
  }

  /** Pseudo state returned by trans() when no state on the containment chain handles an event. */
  const STATE_UNDEFINED := StateID(-2, "Undefined")
  /** Pseudo state a transAction returns for an explicit self-transition. */
  const STATE_SAME := StateID(-1, "(same)")

  /** An event identifier (by convention a single bit); the name is for display only. */
  datatype Event = Event(value: bv32, name: string) {
    /** operator == : compares the numeric id only. */
    predicate Is(other: Event) {
      value == other.value
    }
  }

  /** Pseudo event: no event. */
  const EVENT_NONE := Event(0, "None")

  /** The empty event set. */
  const EVENT_SET_NONE: bv32 := EVENT_NONE.value

  /** `mask | bits`: the union of two event sets. */
  function Union(mask: bv32, bits: bv32): bv32 {
    mask | bits
  }

  /** `mask & bits`: whether two bit masks intersect. */
  predicate HasBits(mask: bv32, bits: bv32) {
    mask & bits != 0
  }

  /** `mask & event`: whether the event's bits intersect the set. */
  predicate Has(mask: bv32, e: Event) {
    HasBits(mask, e.value)
  }

  lemma StateIdEqualityIgnoresName(a: StateID, b: StateID)
    ensures a.Is(b) <==> a.value == b.value
    ensures a.Is(b) <==> StateID(a.value, "").Is(StateID(b.value, b.name + "x"))
    ensures a.Is(b) <==> b.Is(a)
  {
  }

  lemma EventEqualityIgnoresName(a: Event, b: Event)
    ensures a.Is(b) <==> a.value == b.value
    ensures a.Is(b) <==> Event(a.value, "").Is(Event(b.value, b.name + "x"))
    ensures a.Is(b) <==> b.Is(a)
  {
  }

  /** The two pseudo states are reserved (negative), distinct, and never equal to a user state id. */
  lemma PseudoStatesReserved(s: StateID)
    requires s.value >= 0
    ensures STATE_UNDEFINED.value == -2 && STATE_SAME.value == -1
    ensures !STATE_UNDEFINED.Is(STATE_SAME)
    ensures !s.Is(STATE_UNDEFINED) && !s.Is(STATE_SAME)
  {
  }

  /** Adding an event (or a set) to a set: the result holds an event iff either part does. */
  lemma UnionMembership(a: bv32, b: bv32, e: Event)
    ensures Has(Union(a, b), e) <==> Has(a, e) || Has(b, e)
  {
    UnionBits(a, b, e.value);
  }

  lemma UnionBits(a: bv32, b: bv32, c: bv32)
    ensures HasBits(Union(a, b), c) <==> HasBits(a, c) || HasBits(b, c)
  {
    OrHasBits(a, b, c);
  }

  lemma OrHasBits(a: bv32, b: bv32, c: bv32)
    ensures HasBits(a | b, c) <==> HasBits(a, c) || HasBits(b, c)
  {
    OrBits(a, b, c);
  }

  lemma OrBits(a: bv32, b: bv32, c: bv32)
    ensures (a | b) & c != 0 <==> a & c != 0 || b & c != 0
  {
  }

  /** The empty set holds no event, and every set holds the events added to it. */
  lemma EmptyAndAdded(a: bv32, e: Event)
    ensures !Has(EVENT_SET_NONE, e)
    ensures e.value != 0 ==> Has(Union(a, e.value), e)
  {
    AddedBits(a, e.value);
  }

  lemma AddedBits(a: bv32, c: bv32)
    ensures !HasBits(0, c)
    ensures c != 0 ==> HasBits(Union(a, c), c)
  {
    OwnBits(a, c);
  }

  lemma OwnBits(a: bv32, c: bv32)
    ensures 0 & c == 0
    ensures c != 0 ==> (a | c) & c != 0
  {
  }

  /** The mutable EventSet: a bitmask over event ids. */
  class EventSet {
    var value: bv32

    /** EventSet(): the empty set. */
    constructor ()
      ensures value == EVENT_SET_NONE
    {
      value := EVENT_NONE.value;
    }

    constructor FromEvent(e: Event)
      ensures value == e.value
    {
      value := e.value;
    }

    constructor FromEvents(events: bv32)
      ensures value == events
    {
      value := events;
    }

    function Events(): bv32
      reads this
    {
      value
    }

    method Clear()
      modifies this
      ensures value == EVENT_SET_NONE
    {
      value := EVENT_NONE.value;
    }

    /** operator |=(Event) */
    method AddEvent(e: Event)
      modifies this
      ensures value == Union(old(value), e.value)
    {
      value := Union(value, e.value);
    }

    /** operator |=(EventSet); `other` may be this set itself. */
    method AddSet(other: EventSet)
      modifies this
      ensures value == Union(old(value), old(other.value))
    {
      value := Union(value, other.value);
    }

    /** operator &(Event): membership. */
    method Contains(e: Event) returns (r: bool)
      ensures r <==> Has(value, e)
    {
      r := HasBits(value, e.value);
    }

    /** operator |(Event): ORs the event into this set AND returns a copy of the result. */
    method Or(e: Event) returns (r: EventSet)
      modifies this
      ensures fresh(r)
      ensures value == Union(old(value), e.value) && r.value == value
    {
      value := Union(value, e.value);
      r := new EventSet.FromEvents(value);
    }
  }
}
