# ACF_Base core in Dafny

This project models the three cooperating parts of the ACF_Base Arduino framework and
proves properties of them:

- **The hierarchical state engine** (`ACF_State`). Covered:
  - the `StateID`, `Event` and `EventSet` value types;
  - simple and composite states in a containment tree;
  - `acceptedUserEvents` / `eval` delegation;
  - `trans` (the innermost handler wins), `exit` (inner to outer, stopping at the composite that contains the target) and `enter` (outer to inner, down to a simple state);
  - `AbstractStateAutomaton::transition`: illegal events logged once per state and event, self-transitions, real state changes.

  The five-state test automaton of the unit test (A, composite B{C, D}, E) is built
  and driven through its transitions.
- **The circular persistent log** (`AbstractLog`, in both the current `ACF_Logging.cpp`
  layout and the older `CF_Logging.cpp` layout). Covered:
  - a ring of `logEntrySlots` entries on a byte store, with one slot always kept cleared at head;
  - `clear` and `addLogEntry` with wrap-around;
  - the two readers, newest-first and unnotified-oldest-first;
  - `init`, which rebuilds head, tail and the notification cursor from the stored timestamps after a board reset.
- **The byte store** (`AbstractStore` / `RAMStore`): a byte buffer updated in place,
  with `read8`, `write8`, `update8` and the multi-byte `read` / `write` / `update`.

Files:

- `basics.dfy`: `u8`, `Option`, little-endian `uint16_t` / `uint32_t` bytes.
- `store.dfy`: `RamStore`, a class over an `array<u8>`.
- `events.dfy`: `StateID`, `Event`, the mutable `EventSet`.
- `statechart.dfy`: the state engine as functions over a snapshot of the containment tree, and the lemmas about it.
- `states.dfy`: the state objects and the automaton as classes whose methods are proved against those functions.
- `statetest.dfy`: the five-state test automaton.
- `loglayout.dfy`: the log's byte layout, ring arithmetic, cursors, readers and restart recovery as pure values and lemmas.
- `logging.dfy`: `Log`, a class whose methods update head, tail, the notification cursor, the reader and the store's bytes.

The user hooks of the state engine (`entryAction`, `exitAction`, the user transition
actions) are recorded as a trace of `Action` records, so that their order can be
stated. The timestamp generator `LogTime` is replaced by timestamps passed in as
parameters. The state objects live in one arena. They are numbered so that a
containing state comes before its substates, and the pointer fields become indices.

## Model

| member | source | states |
|---|---|---|
| Basics.U16RoundTrip | src/ACF_Logging.cpp:48 | a uint16_t slot count written as its two little-endian bytes reads back as the same number |
| Basics.U16BytesRoundTrip | src/ACF_Logging.cpp:67 | any two stored bytes, read as a uint16_t and written back, are the same two bytes |
| Basics.U32RoundTrip | src/ACF_Logging.h:41 | a timestamp written as four little-endian bytes reads back unchanged |
| Basics.U32BytesRoundTrip | src/ACF_Logging.h:41 | any four stored bytes, read as a timestamp and written back, are the same four bytes |
| Basics.U32ZeroIffZeroBytes | src/ACF_Logging.cpp:93 | a stored timestamp is 0 exactly when its four bytes are all zero |
| Store.Splice | src/ACF_Store.h:71-75 | after a multi-byte write, the window from idx holds the written bytes and every byte outside it is unchanged |
| Store.SpliceSame | src/ACF_Store.h:93-99 | writing the bytes that are already stored leaves the memory as it is |
| Store.SpliceIdempotent | src/ACF_Store.h:93-99 | writing the same bytes twice has the effect of writing them once |
| Store.RamStore.constructor | src/ACF_Store.h:16-117 | a RAM store's offset() is 0 and its size() is the size given, over a fresh buffer of exactly that many bytes; both are `const` fields, so they never change afterwards |
| Store.RamStore.Clear | src/ACF_Store.cpp:6-16 | every byte from offsetBytes to the end is 0, and the bytes before offsetBytes are unchanged |
| Store.RamStore.Read8 | src/ACF_Store.cpp:18-27 | returns the stored byte at idx |
| Store.RamStore.Write8 | src/ACF_Store.cpp:29-37 | the byte at idx becomes v and no other byte changes |
| Store.RamStore.Update8 | src/ACF_Store.cpp:39-49 | returns true iff the stored byte differed from v; afterwards the byte is v, nothing else changes, and nothing changes at all when it returns false |
| Store.RamStore.Read | src/ACF_Store.h:51-56 | returns the len bytes from idx on, in order |
| Store.RamStore.Write | src/ACF_Store.h:71-75 | the bytes from idx on become the given bytes, in order, and the rest of the memory is unchanged |
| Store.RamStore.Update | src/ACF_Store.h:93-99 | leaves the same memory as write, and returns true iff the stored window differed from the given bytes |
| Store.WriteThenRead | src/ACF_Store.h:71-75 | a read after a write at the same index returns exactly the bytes written |
| Store.Update8Twice | src/ACF_Store.cpp:39-41 | a second update8 with the same arguments reports no change |
| Events.StateIdEqualityIgnoresName | src/ACF_State.h:38-39 | StateID equality compares the numeric id only, ignores the name, and is symmetric |
| Events.EventEqualityIgnoresName | src/ACF_State.h:76-77 | Event equality compares the numeric id only, ignores the name, and is symmetric |
| Events.PseudoStatesReserved | src/ACF_State.h:46-50 | STATE_UNDEFINED is -2 and STATE_SAME is -1; they are distinct, and neither equals a non-negative user state id |
| Events.UnionMembership | src/ACF_State.h:103-109 | the union of two event sets holds an event iff either set does |
| Events.EmptyAndAdded | src/ACF_State.h:84-103 | the empty event set holds no event, and a set holds every non-zero event added to it |
| Events.EventSet.constructor | src/ACF_State.h:93 | a default EventSet is empty |
| Events.EventSet.FromEvent | src/ACF_State.h:94 | an EventSet built from one event holds exactly that event's bits |
| Events.EventSet.FromEvents | src/ACF_State.h:95 | an EventSet built from a bitmask holds that bitmask |
| Events.EventSet.Clear | src/ACF_State.h:100 | clear() makes the set empty |
| Events.EventSet.AddEvent | src/ACF_State.h:103 | `|=` with an event makes the set the union of the old set and the event |
| Events.EventSet.AddSet | src/ACF_State.h:106 | `|=` with a set makes the set the union of both old values, including when the other set is the same object |
| Events.EventSet.Contains | src/ACF_State.h:109 | `&` is true iff the event's bits intersect the set |
| Events.EventSet.Or | src/ACF_State.h:119 | `|` ORs the event into the set itself and returns a fresh set holding the same value |
| StateChart.Chain | src/ACF_State.h:138-139 | the containment chain starts at the state, each element's containingState is the next one, and it ends at a state without a containing state |
| StateChart.DefaultAcceptedDelegates | src/ACF_State.cpp:8-20 | the default acceptedUserEvents() returns the containing state's events, or EVENT_SET_NONE at a root, and the default eval() equals acceptedUserEvents() |
| StateChart.FindHandler | examples/ACF_State_Test/ut_ACF_State.h:126-132 | transAction takes the first branch that tests the event, and none iff no branch tests it |
| StateChart.InnermostHandlerWins | src/ACF_State.cpp:44-48 | trans() answers what the innermost state on the containment chain that handles the event answers, and STATE_UNDEFINED when no state on the chain handles it |
| StateChart.TransActionsFollowChain | src/ACF_State.cpp:83-88 | the transition actions trans() runs belong to states on the containment chain, one per state at most, for this event only |
| StateChart.ExitStopsAtContainer | src/ACF_State.cpp:92-104 | exit() runs the exit actions of the containment chain inner to outer, and stops before the first composite that has the target as an immediate substate, without running that composite's exit action |
| StateChart.ConfinedTransitionSparesContainer | src/ACF_State.cpp:92-99 | a move between two substates of one composite runs only the source's exit action and never that composite's entry or exit action |
| StateChart.EnterResult | src/ACF_State.cpp:78-81 | enter() always ends in a simple state contained in (or equal to) the entered state |
| StateChart.EnterDescends | src/ACF_State.cpp:74-81 | enter() runs entry actions only, outer to inner: the entered state first, then each initial substate in turn, ending with the simple state it returns |
| StateChart.Lookup | src/ACF_State.cpp:179-184 | state(id) finds the first pool entry with that id, and finds nothing iff no pool entry has it |
| StateChart.LookupFindsOwner | src/ACF_State.cpp:179-184 | with unique ids and every state in the pool, state(id) returns the one state object that has the id |
| StateChart.RejectRemembers | src/ACF_State.cpp:144-156 | a rejected event is logged (when a log is attached) and its bit set only if the bit was clear; nothing else changes |
| StateChart.RejectionSetsBit | src/ACF_State.cpp:143-156 | a transition() that no state handles keeps the current state, sets the event's bit in that state only, and sends a message only if the bit was clear |
| StateChart.RejectedEventLoggedOnce | src/ACF_State.cpp:143-156 | repeating a rejected event sends no second message and changes no bit |
| StateChart.SelfTransitionDoesNothing | src/ACF_State.cpp:158-176 | a self-transition runs only user transition actions: no exit, no entry, no message, same current state |
| StateChart.MoveFindsTarget | src/ACF_State.cpp:159-163 | with every state in the pool, the move enters the target and makes the simple state enter() returns current |
| StateChart.MoveStep | src/ACF_State.cpp:141-165 | a real state change appends the transition actions, then the exit chain, then the entry chain, and makes the entered simple state current; nothing else changes. The target is matched by numeric id only, as `==` on StateID does |
| States.StateObjects.constructor | src/ACF_State.h:139-146 | fresh state objects have no containing state, no substates, an empty illegal-transition set and no action run |
| States.StateObjects.SetSubstates | src/ACF_State.cpp:65-72 | setSubstates stores the substates and makes the composite the containing state of each listed substate, and of no other state |
| States.StateObjects.InitialSubstate | src/ACF_State.cpp:74-76 | initialSubstate() is the first substate |
| States.StateObjects.AcceptedUserEvents | src/ACF_State.cpp:8-15 | returns Accepted: the state's own events, or the containing state's events (none at a root) with its extra events ORed in |
| States.StateObjects.Eval | src/ACF_State.cpp:17-20 | the default eval() returns acceptedUserEvents() |
| States.StateObjects.EntryAction | examples/ACF_State_Test/ut_ACF_State.h:106 | the entry action of state i is appended to the trace and nothing else changes |
| States.StateObjects.ExitAction | examples/ACF_State_Test/ut_ACF_State.h:107 | the exit action of state i is appended to the trace and nothing else changes |
| States.StateObjects.TransAction | src/ACF_State.cpp:22-25 | answers the target of the first branch testing the event, or STATE_UNDEFINED by default, and runs the user transition action exactly when that branch has one |
| States.StateObjects.Enter | src/ACF_State.cpp:39-81 | a simple state runs its entry action and returns its own id; a composite runs its entry action, then enters its initial substate, and returns the id of the simple state reached (EnterTrace, EnterResult) |
| States.StateObjects.Trans | src/ACF_State.h:195 | trans() returns Target and runs exactly TransTrace, whichever variant the state is |
| States.StateObjects.Delegate | src/ACF_State.cpp:83-90 | composite trans(): this state's transAction, then the containing state's trans() on STATE_UNDEFINED, and no exit |
| States.StateObjects.SimpleTrans | src/ACF_State.cpp:44-53 | simple trans(): as for a composite, then exit() when the answer is a real state other than this one |
| States.StateObjects.Exit | src/ACF_State.cpp:55-104 | runs exactly ExitTrace: a simple state runs its exit action and exits its containing state; a composite that lists the target among its substates stops, otherwise it runs its exit action and exits its containing state |
| States.StateObjects.MarkLogged | src/ACF_State.cpp:155 | `illegalTransitionLogged |= event` on the current state only |
| States.Automaton.constructor | src/ACF_State.h:302-306 | a fresh automaton has no states array, no log and no message sent |
| States.Automaton.SetStates | src/ACF_State.cpp:111-117 | stores the states array, and makes its first entry current when it is non-empty |
| States.Automaton.SetLog | src/ACF_State.h:286-287 | attaches or detaches the log and changes nothing else |
| States.Automaton.AcceptedUserEvents | src/ACF_State.cpp:119-121 | returns the current state's acceptedUserEvents() |
| States.Automaton.Evaluate | src/ACF_State.cpp:123-132 | returns the current state's eval() |
| States.Automaton.StateOf | src/ACF_State.cpp:179-187 | returns the first pool state with the id; for an unknown id it sends the unknown-state message (when a log is attached) and halts |
| States.Automaton.RejectEvent | src/ACF_State.cpp:143-156 | the illegal-transition branch leaves the automaton as Reject says: logged and remembered once per state and event |
| States.Automaton.ChangeTo | src/ACF_State.cpp:158-165 | the state-change branch leaves the automaton as Move says: the target is entered and the simple state reached becomes current |
| States.Automaton.Transition | src/ACF_State.cpp:134-177 | transition(event) leaves exactly the configuration StateChart.Transition gives, and keeps the tree and the pool |
| StateTest.TestTreeWellFormed | examples/ACF_State_Test/ut_ACF_State.h:162-186 | the test automaton is a well-formed tree whose composite B has an initial substate, with unique ids 1..5, and with every state in ALL_STATES |
| StateTest.Init | examples/ACF_State_Test/ut_ACF_State.h:173-186 | after init() the current state is A, B's substates are C then D, no log is attached, and nothing has run |
| StateTest.TestObjects | examples/ACF_State_Test/ut_ACF_State.h:164-169 | the five state objects with B's substates set to C and D |
| StateTest.AcceptedEventsOfTestStates | examples/ACF_State_Test/ut_ACF_State.h:95-159 | A accepts 0x1, B 0x2, C 0xE, D 0x12 and E nothing |
| StateTest.FromAToB | examples/ACF_State_Test/ut_ACF_State.h:99-103 | A_B in A runs trans_A_B, exitA, entryB and entryC once each, and ends in C |
| StateTest.FromCToC | examples/ACF_State_Test/ut_ACF_State.h:127-130 | C_C in C runs only trans_C_C and stays in C |
| StateTest.FromCToD | examples/ACF_State_Test/ut_ACF_State.h:131 | C_D in C runs exitC and entryD only (not exitB or entryB) and ends in D |
| StateTest.FromDToE | examples/ACF_State_Test/ut_ACF_State.h:143 | D_E in D runs exitD, exitB, entryE and ends in E |
| StateTest.FromDToA | examples/ACF_State_Test/ut_ACF_State.h:113-115 | B_A in D is handled by B: exitD, exitB, entryA, ending in A |
| StateTest.FromCToA | examples/ACF_State_Test/ut_ACF_State.h:113-115 | B_A in C is handled by B as well: exitC, exitB, entryA, ending in A |
| StateTest.IllegalInE | examples/ACF_State_Test/ut_ACF_State.h:153-156 | any event in E is illegal, E stays current, and with a log it is logged exactly once |
| StateTest.TakeAToB | examples/ACF_State_Test/ut_ACF_State.h:99-103 | the automaton in A takes A_B into C with exactly those actions |
| StateTest.TakeCToC | examples/ACF_State_Test/ut_ACF_State.h:127-130 | the automaton in C takes C_C and stays in C |
| StateTest.TakeCToD | examples/ACF_State_Test/ut_ACF_State.h:131 | the automaton in C takes C_D into D |
| StateTest.TakeDToE | examples/ACF_State_Test/ut_ACF_State.h:143 | the automaton in D takes D_E into E |
| StateTest.RunToE | examples/ACF_State_Test/ut_ACF_State.h:66-79 | init() followed by A_B, C_C, C_D, D_E ends in E with exactly the diagram's action sequence and no message |
| LogLayout.SlotCount | src/ACF_Logging.cpp:21 | logEntrySlots is the largest number of whole entries that fit behind the header: 3 bytes, or only the 2-byte slot count in the older layout (CF_Logging.cpp:12) |
| LogLayout.SlotsDisjoint | src/ACF_Logging.cpp:28-30 | entries lie behind the header and never overlap each other |
| LogLayout.SlotsFitStore | src/ACF_Logging.cpp:21-30 | every slot of the computed count lies inside the store |
| LogLayout.Encode | src/ACF_Logging.h:40-44 | a LogEntry occupies LOG_ENTRY_SIZE = 11 bytes |
| LogLayout.DecodeEncode | src/ACF_Logging.h:40-44 | an entry read back from its bytes is the entry written |
| LogLayout.EncodeDecode | src/ACF_Logging.h:40-44 | any 11 stored bytes read as an entry and written back are the same bytes |
| LogLayout.ClearedSlotIsEmpty | src/ACF_Logging.cpp:131-137 | a cleared slot reads as timestamp 0, and an entry with a non-zero timestamp never has all bytes zero |
| LogLayout.Next | src/ACF_Logging.cpp:150 | `(i + 1) % slots` stays on the ring and wraps from the last slot to 0 |
| LogLayout.Prev | src/ACF_Logging.cpp:95 | `(slots + i - 1) % slots` stays on the ring and wraps from 0 to the last slot |
| LogLayout.Count | src/ACF_Logging.cpp:36-40 | currentLogEntries() is below the slot count, and going that many slots round from tail reaches head |
| LogLayout.CountIsModularDistance | src/ACF_Logging.cpp:32-40 | currentLogEntries() equals (head - tail) mod slots and is at most maxLogEntries() = slots - 1 |
| LogLayout.UnnotifiedCount | src/ACF_Logging.cpp:191-195 | the unnotified toRead is below the slot count and counts the slots after lastNotified up to the one before head |
| LogLayout.ClearedCursors | src/ACF_Logging.cpp:54-58 | after clear(), one entry is stored and that one entry is unnotified |
| LogLayout.Append | src/ACF_Logging.cpp:150-153 | addLogEntry moves head and tail as the source does, keeping every cursor on the ring (lastNotified is corrected, see Findings) |
| LogLayout.AppendCount | src/ACF_Logging.cpp:150-153 | an append adds one entry until there are slots - 1, then the count stays there |
| LogLayout.AppendKeepsUnnotified | src/ACF_Logging.cpp:150-153 | with lastNotified carried along, every append adds one unnotified entry up to the capacity and never counts more unnotified than stored |
| LogLayout.AppendAsWrittenForgetsUnnotified | src/ACF_Logging.cpp:150-153 | as written, clear() plus three appends on 4 slots leaves 3 unnotified entries reported as 0 |
| LogLayout.AppendRemembersUnnotified | src/ACF_Logging.cpp:150-153 | with the correction the same appends keep the 3 unnotified entries |
| LogLayout.MostRecentReader | src/ACF_Logging.cpp:171-186 | toRead is maxResults capped at currentLogEntries() (all entries for 0), and reading starts from the slot before head |
| LogLayout.UnnotifiedReader | src/ACF_Logging.cpp:189-203 | toRead is the unnotified count, and reading starts after lastNotified |
| LogLayout.StepBackAsWrittenMissteps | src/ACF_Logging.cpp:218 | the backward step as written (also CF_Logging.cpp:198) agrees with Prev except from slot 0. With a 32-bit `int` (ARM) it yields 65535, outside the ring. With a 16-bit `int` (AVR) it yields 65535 % slots, which is the last slot exactly when the slot count divides 65536 |
| LogLayout.MostRecentAsWrittenMissteps | src/ACF_Logging.cpp:218 | on a full ring with head at 1, the most-recent reader reads slot 0 first. On AVR with 5 slots it then reads slot 0 again instead of slot 4. On ARM (12-byte entries) with 4 slots its second read is at byte offset 65527, past the 51-byte store |
| LogLayout.Advance | src/ACF_Logging.cpp:216-222 | a successful read counts one more entry and moves nextIndex one slot back (most recent) or forward (unnotified), staying on the ring |
| LogLayout.MostRecentReaderOnRing | src/ACF_Logging.cpp:171-186 | a fresh most-recent reader starts at the newest stored entry |
| LogLayout.UnnotifiedReaderOnRing | src/ACF_Logging.cpp:189-203 | a fresh unnotified reader starts at the oldest unnotified entry |
| LogLayout.AdvanceOnRing | src/ACF_Logging.cpp:206-223 | after a successful read the reader is still on the stored entries, and no more entries count as unnotified than are stored |
| LogLayout.ConsumedReaderLeavesNothingUnnotified | src/ACF_Logging.cpp:220-222 | once the unnotified reader has returned everything, an immediate second readUnnotifiedLogEntries() gets 0 entries |
| LogLayout.ReaderReadsEntry | src/ACF_Logging.cpp:208 | a valid reader with entries left reads the stored entry at its position: newest first, or oldest unnotified first |
| LogLayout.NotifyKeepsLayout | src/ACF_Logging.cpp:220-222 | the unnotified reader marking the slot it read changes neither the stored entries nor their count |
| LogLayout.AppendImageKeepsRest | src/ACF_Logging.cpp:149-155 | addLogEntry touches no byte past the last slot |
| LogLayout.AppendSlots | src/ACF_Logging.cpp:149-155 | head holds the new entry, the slot after it is cleared, and the header and every other slot are unchanged |
| LogLayout.AppendKeepsLayout | src/ACF_Logging.cpp:143-155 | addLogEntry keeps the ring layout and appends the entry at the newest end, dropping the oldest when the ring is full |
| LogLayout.ZeroedRingLayout | src/ACF_Logging.cpp:50-55 | all slots zeroed with head = tail = 0 is an empty, well-laid ring |
| LogLayout.RingSlotIsMod | src/ACF_Logging.cpp:117 | `(head + i) % slots` is the slot i places round from head |
| LogLayout.FindHead | src/ACF_Logging.cpp:90-105 | head is the first slot with timestamp 0, or the out-of-range marker when every slot holds an entry |
| LogLayout.FindTail | src/ACF_Logging.cpp:115-123 | tail is the first slot holding an entry going round from head + 1, or the marker when there is none |
| LogLayout.FindTailSkipsEmpty | src/ACF_Logging.cpp:116-123 | every slot that search passes over is empty |
| LogLayout.Recover | src/ACF_Logging.cpp:84-124 | a recovery leaves every cursor on the ring, lastNotified right before head (nothing unnotified), and a non-zero timestamp for the clock |
| LogLayout.RecoverRing | src/ACF_Logging.cpp:84-124 | on a store written by clear() and appends, init() recovers the same head and tail and resumes from the newest entry's timestamp |
| LogLayout.NewestBeforeHead | src/ACF_Logging.cpp:95-104 | the slot before head holds the newest entry |
| LogLayout.RecoverHead | src/ACF_Logging.cpp:90-105 | the first empty slot of a laid-out ring is head |
| LogLayout.RecoverTail | src/ACF_Logging.cpp:115-124 | going round from head, the empty slots come first and the first entry found is tail |
| Logging.CheckHeader | src/ACF_Logging.cpp:66-82 | the header is intact iff the magic byte is 199 and the stored slot count matches; a wrong magic byte takes precedence over a size change; the older layout (CF_Logging.cpp:52-62) checks only the slot count |
| Logging.Log.constructor | src/ACF_Logging.cpp:18-22 | the slot count is computed from the store size, with cursors at 0 and no valid reader |
| Logging.Log.CurrentLogEntries | src/ACF_Logging.cpp:32-40 | the count never exceeds maxLogEntries(), and going that many slots round from tail reaches head |
| Logging.Log.ClearLogEntry | src/ACF_Logging.cpp:131-137 | zeroes one slot, invalidates the reader, and leaves the cursors and other bytes alone |
| Logging.Log.AddLogEntry | src/ACF_Logging.cpp:143-169 | the entry is written at head, the cursors move as Append says (lastNotified corrected, see Findings), the stored entries gain the entry at the newest end (dropping the oldest when full), and the reader is invalidated |
| Logging.Log.WriteLogEntry | src/ACF_Logging.cpp:149 | the entry's bytes are stored at head's slot |
| Logging.Log.MoveCursors | src/ACF_Logging.cpp:150-153 | head steps on and pushes tail when it meets it, as Append says (lastNotified corrected, see Findings: when the slot it marks is overwritten it moves to the slot before the new tail, which the source never does) |
| Logging.Log.LogMessage | src/ACF_Logging.h:126-132 | logMessage is one addLogEntry of the consumer's record for the message |
| Logging.Log.Clear | src/ACF_Logging.cpp:42-59 | after clear() the ring holds only the init message, head = 1, tail = 0, lastNotified = slots - 1, and bytes past the slots are untouched; the older layout (CF_Logging.cpp:29-45) writes no magic byte |
| Logging.Log.ResetRing | src/ACF_Logging.cpp:47-55 | header written, slots zeroed and head = tail = 0: an empty ring |
| Logging.Log.ZeroSlots | src/ACF_Logging.cpp:47-52 | the header is intact and every slot is zero |
| Logging.Log.WriteHeader | src/ACF_Logging.cpp:47-48 | the magic byte and the slot count are stored, and no entry byte changes |
| Logging.Log.Init | src/ACF_Logging.cpp:62-129 | a bad header clears and logs the reason; otherwise the cursors are exactly Recover's (or init halts naming the failed assertion), and the store is not written; the older layout (CF_Logging.cpp:48-109) clears only on a size change |
| Logging.Log.ClearAndReport | src/ACF_Logging.cpp:74-82 | after clear() one more message says why (wrong magic number, or the old and new slot counts) |
| Logging.Log.Restore | src/ACF_Logging.cpp:84-124 | with an intact header, the outcome is Recover's: cursors rebuilt or a halt, and the cursors untouched on a halt |
| Logging.Log.ResumeFrom | src/ACF_Logging.cpp:107-124 | after head is found, tail is searched and the cursors are set as Recover's |
| Logging.Log.ScanForHead | src/ACF_Logging.cpp:89-105 | the first loop finds FindHead and the index and timestamp of the entry before it |
| Logging.Log.MostRecentBefore | src/ACF_Logging.cpp:95-101 | the entry before head, read from the last slot when head is slot 0 |
| Logging.Log.ScanForTail | src/ACF_Logging.cpp:115-123 | the second loop finds the slot FindTail names, or the marker |
| Logging.Log.ProbeSlot | src/ACF_Logging.cpp:117-118 | probes slot `(head + k) % slots` and reads its timestamp |
| Logging.Log.ReadMostRecentLogEntries | src/ACF_Logging.cpp:171-186 | on any cursors on the ring, sets the reader to MostRecentReader, and keeps a sound log sound |
| Logging.Log.ReadUnnotifiedLogEntries | src/ACF_Logging.cpp:189-203 | on any cursors on the ring, sets the reader to UnnotifiedReader, and keeps a sound log sound |
| Logging.Log.NextLogEntry | src/ACF_Logging.cpp:206-231 | returns false, changing nothing, iff the reader is invalid or exhausted; otherwise returns the stored entry at the reader's position, steps the reader, and for the unnotified reader marks that entry notified |
| Logging.Log.StepBack | src/ACF_Logging.cpp:217-218 | the most-recent reader steps back round the ring (corrected step, see Findings) |
| Logging.Log.StepForward | src/ACF_Logging.cpp:220-222 | the unnotified reader marks the slot read as lastNotified and steps forward, leaving the entries as they are |
| Logging.Log.ReadEntry | src/ACF_Logging.cpp:208 | reads and decodes the bytes of one slot |
| Logging.Reopen | src/ACF_Logging.h:97-103 | after a board reset, init() on the same store resumes with the same entries, head and tail, counts every entry as notified, and does not write the store |
| Logging.ResumeRing | src/ACF_Logging.cpp:84-124 | init() finds an intact header on a laid-out store and recovers its cursors with lastNotified right before head |

## Findings

| source | as written | input that shows it | evidently intended | confidence | as-written member | corrected member |
|---|---|---|---|---|---|---|
| src/ACF_Logging.cpp:218 | the most-recent reader steps back with `(reader.nextIndex - 1) % logEntrySlots` (the same at CF_Logging.cpp:198). From slot 0 a 32-bit `int` gives -1 % slots = -1, stored as 65535. A 16-bit `int` gives 65535 % slots, which is wrong unless the slot count divides 65536 | full ring, head 1, tail 2, readMostRecentLogEntries(0). AVR, 5 slots (58-byte store): reads slot 0, then slot 0 again instead of slot 4. ARM, 12-byte entries, 4 slots (51-byte store): reads slot 0, then slot 65535 at offset 65527 | `(logEntrySlots + nextIndex - 1) % logEntrySlots`, as at lines 95 and 180 | not executed | LogLayout.MostRecentAsWrittenMissteps | LogLayout.AdvanceOnRing |
| src/ACF_Logging.cpp:150-153 | addLogEntry never moves lastNotifiedLogEntryIndex; when the ring is full and lastNotified sits at head, the append makes the unnotified count 0 | 4 slots: clear() and two appends leave 3 unnotified entries; a third append reports 0 unnotified | lastNotified moves to the slot before the new tail when its slot is overwritten, so the unnotified entries stay unnotified | not executed | LogLayout.AppendAsWrittenForgetsUnnotified | LogLayout.AppendKeepsUnnotified |

The log model uses the corrected step (`Prev`) and the corrected append (`Append`).
`StepBackAsWritten` and `AppendAsWritten` keep the code as written. The lemmas above
compare the two versions.

## Left out

- Logging.Log.constructor: requires a store of at least two slots and under 64 KiB. With 0 slots the source divides by zero, and with 1 slot it cannot keep an entry. `entryOffset` and the cursors are `uint16_t`, so a larger store overflows them.
- Logging.Log.AddLogEntry: requires a timestamp above every stored one, standing in for the monotonic `LogTime` clock. `LogTime` itself (`ACF_LogTime.h`) is not part of this model. Its `timestamp()`, `reset()` and `adjust()` become the timestamps passed in and the timestamp `init()` reports.
- Logging.Log.AddLogEntry: requires the log to be laid out (as `clear()` or `init()` leave it). A log that was never cleared or initialised is not modelled.
- Logging.Log.NextLogEntry: requires a sound log. The fields of an invalid reader are not given meaning, matching the header's note that they are defined only while `valid`.
- Logging.Log.MaxLogEntries: `maxLogEntries()` is the function `slots - 1`, stated through CurrentLogEntries' bound.
- `sizeof(LogEntry)` is taken as 11, the AVR packing. ARM pads it to 12; the log model does not cover that layout, and only the ARM exhibit of MostRecentAsWrittenMissteps uses 12.
- The payload is an opaque 6-byte value, so `memcpy` from the consumer's `LogData` is not modelled. `logMessage` is consumer-defined; it is a function from message id and parameters to a record, and it runs exactly one `addLogEntry`.
- `magicNumber()` is inlined into `init()` as the read of byte 0.
- `log_S_O_S`, `write_S_O_S` and `blink_S_O_S` are not modelled. A failed `ASSERT` in `init()` becomes the `Halted` outcome with the assertion's reason. An unknown state id in `state(id)` sets `halted` instead of blinking forever.
- States.Automaton.StateOf: with no log attached, the source calls `log_S_O_S` through a null pointer at src/ACF_State.cpp:185, which is undefined behaviour. The model sends no message and halts. After a halt the model does not block further calls.
- `stateChanged` is a hook whose default does nothing, so it has no contract.
- All `#ifdef DEBUG_*` Serial output.
- `expiringMedia()`, the EEPROM and FRAM stores, and configuration persistence are not modelled. The RAM store stands in for any store.
- The `MockExecutionContext` counters of the unit test are represented by the action trace. A counter is the number of matching records in the trace. `reset()` is not modelled separately: the scenarios start from an empty trace.
- The state tree is an arena in which a containing state is numbered before its substates. That order is what makes `trans`, `exit` and `acceptedUserEvents` terminate. A containment cycle, which the source would loop on forever, cannot be expressed.
- States.Automaton.constructor: composite states must have had `setSubstates` called before the automaton is built, not merely before `enter()` is used. Entering a composite without substates reads an unset pointer in the source. So the test automaton's `init()` sets B's substates before `setStates`, the reverse of the source's order; the two calls touch disjoint state.
- States.Automaton.constructor: the source leaves `currentState` unset until `setStates` receives a non-empty array. The model makes the first state object current until then.
- The message ids of src/ACF_Messages.h, src/ACF_Types.h and ACF_LogTime.h are constants only. The log's own message ids (init 2, magic 3, size change 4) and the state engine's (30, 31) are taken as written.
