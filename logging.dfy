/** AbstractLog: the circular persistent log kept on a byte store. Its cursors and
    reader are fields the methods update in place; the entries live in the store's
    bytes, laid out as LogLayout describes. */
module Logging {
  import opened Basics
  import opened Store
  import opened LogLayout

  /** A consumer's logMessage(): how a message id and its two parameters become the
      type and payload of one log entry. */
  type MessageCodec = (nat, int, int) -> Record

  /** What init() did: recovered the cursors (and the timestamp the clock resumes
      from), cleared the log for one of two reasons, or halted on a failed assertion. */
  datatype InitOutcome =
    | Resumed(timestamp: nat)
    | ClearedBadMagic
    | ClearedSizeChange(storedSlots: nat)
    | Halted(reason: HaltReason)

  /** How init() reads the header. */
  datatype HeaderCheck = HeaderIntact | BadMagic | SizeChanged(stored: nat)

  /** The magic byte (current layout only) and the stored slot count, checked in that
      order: a wrong magic byte is what gets reported when both are off. */
  function CheckHeader(mem: seq<u8>, f: Format, slots: nat): (r: HeaderCheck)
    requires |mem| >= EntriesOffset(f)
    ensures r.HeaderIntact? <==> HeaderOk(mem, f, slots)
    ensures r.BadMagic? ==> f.Current?
    ensures r.SizeChanged? ==> r.stored != slots
  {
    var stored := U16Of(mem[SlotCountOffset(f)..EntriesOffset(f)]);
    if f.Current? && mem[0] != MAGIC_NUMBER then BadMagic
    else if stored != slots then SizeChanged(stored)
    else HeaderIntact
  }

  function EntryOf(rec: Record, stamp: nat): LogEntry {
    LogEntry(stamp, rec.kind, rec.data)
  }

  class Log {
    /** The physical storage of the log. */
    const store: RamStore
    const format: Format
    /** logEntrySlots */
    const slots: nat
    const message: MessageCodec
    /** logHeadIndex: the next slot to write, already cleared. */
    var head: nat
    /** logTailIndex: the oldest entry. */
    var tail: nat
    /** lastNotifiedLogEntryIndex */
    var lastNotified: nat
    var reader: Reader

    ghost predicate Valid()
      reads this`head, this`tail, this`lastNotified, store
    {
      && store.Valid()
      && EntriesOffset(format) <= store.sizeBytes < U16_LIMIT
      && slots == SlotCount(format, store.sizeBytes) && slots >= 2
      && head < slots && tail < slots && lastNotified < slots
    }

    function State(): Cursors
      reads this`head, this`tail, this`lastNotified
    {
      Cursors(head, tail, lastNotified)
    }

    /** The stored entries, oldest first. */
    ghost function Contents(): seq<LogEntry>
      reads this`head, this`tail, this`lastNotified, store, store.memory
      requires Valid()
    {
      Entries(store.memory[..], format, slots, State())
    }

    /** The store holds the layout clear() and addLogEntry() maintain. */
    ghost predicate Laid()
      reads this`head, this`tail, this`lastNotified, store, store.memory
    {
      Valid() && RingLayout(store.memory[..], format, slots, State())
    }

    /** Laid out, and a valid reader walks the stored entries. */
    ghost predicate Ready()
      reads this, store, store.memory
    {
      Laid() && ReaderOnRing(reader, State(), slots)
    }

    /** Ready, with at least one entry (clear() always writes one) and lastNotified
        no further back than the oldest entry's predecessor. */
    ghost predicate Sound()
      reads this, store, store.memory
    {
      && Ready()
      && Size(State(), slots) >= 1
      && UnnotifiedCount(State(), slots) <= Size(State(), slots)
    }

    /** AbstractLog(store): as many slots as fit behind the header. */
    constructor (store: RamStore, format: Format, message: MessageCodec)
      requires store.Valid()
      requires EntriesOffset(format) + 2 * LOG_ENTRY_SIZE <= store.sizeBytes < U16_LIMIT
      ensures Valid() && !reader.valid
      ensures this.store == store && this.format == format && this.message == message
      ensures slots == SlotCount(format, store.sizeBytes)
      ensures head == 0 && tail == 0 && lastNotified == 0
    {
      this.store := store;
      this.format := format;
      this.message := message;
      slots := (store.sizeBytes - EntriesOffset(format)) / LOG_ENTRY_SIZE;
      head, tail, lastNotified := 0, 0, 0;
      reader := Reader(MostRecent, false, 0, 0, 0);
    }

    /** maxLogEntries(): one slot is always kept cleared. */
    function MaxLogEntries(): nat
      reads this`head, this`tail, this`lastNotified, store
      requires Valid()
    {
      slots - 1
    }

    /** currentLogEntries(): the entries from tail up to head, never more than maxLogEntries(). */
    function CurrentLogEntries(): (n: nat)
      reads this`head, this`tail, this`lastNotified, store
      requires Valid()
      ensures n <= MaxLogEntries()
      ensures RingSlot(tail, n, slots) == head
    {
      Count(head, tail, slots)
    }

    /** clearLogEntry(index): zeroes one slot byte by byte and invalidates the reader. */
    method ClearLogEntry(i: nat)
      requires Valid() && i < slots
      modifies this, store.memory
      ensures Valid() && State() == old(State())
      ensures reader == old(reader).(valid := false)
      ensures store.memory[..] == ClearSlot(old(store.memory[..]), format, i)
    {
      reader := reader.(valid := false);
      SlotsFitStore(format, store.sizeBytes, i);
      var offset := EntryOffset(format, i);
      var k := 0;
      while k < LOG_ENTRY_SIZE
        invariant 0 <= k <= LOG_ENTRY_SIZE
        invariant State() == old(State()) && reader == old(reader).(valid := false)
        invariant store.memory[..] == Splice(old(store.memory[..]), offset, Zeros(k))
      {
        var _ := store.Update8(offset + k, 0);
        assert Zeros(k + 1) == Zeros(k) + [0];
        k := k + 1;
      }
    }

    /** addLogEntry(type, data): the entry is written at head, head moves on (pushing
        tail along when the ring is full), and the new head slot is cleared. When the
        slot lastNotified marks is the one overwritten, lastNotified moves to the slot
        before the new tail. */
    method AddLogEntry(kind: u8, data: Payload, stamp: nat) returns (entry: LogEntry)
      requires Ready() && 0 < stamp < U32_LIMIT
      requires forall k | 0 <= k < |Contents()| :: Contents()[k].timestamp < stamp
      modifies this, store.memory
      ensures entry == LogEntry(stamp, kind, data)
      ensures Ready() && !reader.valid
      ensures State() == Append(old(State()), slots)
      ensures store.memory[..] == AppendImage(old(store.memory[..]), format, slots, old(State()), entry)
      ensures Contents() == (if old(Size(State(), slots)) == slots - 1 then old(Contents())[1..] else old(Contents())) + [entry]
      ensures old(Size(State(), slots)) <= Size(State(), slots)
      ensures old(UnnotifiedCount(State(), slots) <= Size(State(), slots)) ==> UnnotifiedCount(State(), slots) <= Size(State(), slots)
    {
      entry := LogEntry(stamp, kind, data);
      ghost var c := State();
      ghost var m := store.memory[..];
      ghost var es := Entries(m, format, slots, c);
      assert es == Contents();
      WriteLogEntry(entry);
      MoveCursors();
      ClearLogEntry(head);
      AppendKeepsLayout(m, format, slots, c, entry);
      AppendCount(c, slots);
      if UnnotifiedCount(c, slots) <= Size(c, slots) {
        AppendKeepsUnnotified(c, slots);
      }
    }

    /** addLogEntry() up to the cursor move: the entry written at head. */
    method WriteLogEntry(entry: LogEntry)
      requires Valid() && WellFormed(entry)
      modifies store.memory
      ensures store.memory[..] == WriteSlot(old(store.memory[..]), format, head, entry)
    {
      SlotsFitStore(format, store.sizeBytes, head);
      var _ := store.Update(EntryOffset(format, head), Encode(entry));
    }

    /** addLogEntry()'s cursor move: head steps on and, when it meets tail, tail too. */
    method MoveCursors()
      requires Valid()
      modifies this
      ensures Valid() && reader == old(reader)
      ensures State() == Append(old(State()), slots)
    {
      var written := head;
      head := (head + 1) % slots;
      if head == tail {
        if lastNotified == written {
          lastNotified := tail;
        }
        tail := (tail + 1) % slots;
      }
    }

    /** logMessage(id, param1, param2): exactly one addLogEntry() of the consumer's record. */
    method LogMessage(id: nat, param1: int, param2: int, stamp: nat) returns (ts: nat)
      requires Ready() && 0 < stamp < U32_LIMIT
      requires forall k | 0 <= k < |Contents()| :: Contents()[k].timestamp < stamp
      modifies this, store.memory
      ensures ts == stamp
      ensures Ready() && !reader.valid
      ensures State() == Append(old(State()), slots)
      ensures store.memory[..] == AppendImage(old(store.memory[..]), format, slots, old(State()), EntryOf(message(id, param1, param2), stamp))
      ensures Contents() == (if old(Size(State(), slots)) == slots - 1 then old(Contents())[1..] else old(Contents()))
        + [EntryOf(message(id, param1, param2), stamp)]
      ensures old(Size(State(), slots)) <= Size(State(), slots)
      ensures old(UnnotifiedCount(State(), slots) <= Size(State(), slots)) ==> UnnotifiedCount(State(), slots) <= Size(State(), slots)
    {
      var rec := message(id, param1, param2);
      var entry := AddLogEntry(rec.kind, rec.data, stamp);
      ts := entry.timestamp;
    }

    /** clear(): header rewritten, every slot zeroed, head = tail = 0, one init message
        appended, and lastNotified set to the slot before it. Bytes past the last slot
        are left alone. */
    method Clear(stamp: nat)
      requires Valid() && 0 < stamp < U32_LIMIT
      modifies this, store.memory
      ensures Sound() && !reader.valid
      ensures State() == ClearedCursors(slots)
      ensures Contents() == [EntryOf(message(MSG_LOG_INIT, 0, 0), stamp)]
      ensures forall k | EntryOffset(format, slots) <= k < store.memory.Length :: store.memory[k] == old(store.memory[k])
    {
      ResetRing();
      ghost var m, c := store.memory[..], State();
      var _ := LogMessage(MSG_LOG_INIT, 0, 0, stamp);
      AppendImageKeepsRest(m, format, slots, c, EntryOf(message(MSG_LOG_INIT, 0, 0), stamp));
      LayoutIgnoresNotified(store.memory[..], format, slots, State(), slots - 1);
      lastNotified := slots - 1;
    }

    /** clear() up to the init message: an empty ring over zeroed slots. */
    method ResetRing()
      requires Valid()
      modifies this, store.memory
      ensures Laid() && !reader.valid && Contents() == []
      ensures head == 0 && tail == 0 && lastNotified == old(lastNotified)
      ensures forall k | EntryOffset(format, slots) <= k < store.memory.Length :: store.memory[k] == old(store.memory[k])
    {
      ZeroSlots();
      head, tail := 0, 0;
      ZeroedRingLayout(store.memory[..], format, slots, lastNotified);
    }

    /** clear() up to the cursor reset: the header and the zeroed slots. */
    method ZeroSlots()
      requires Valid()
      modifies this, store.memory
      ensures Valid() && State() == old(State()) && !reader.valid
      ensures HeaderOk(store.memory[..], format, slots)
      ensures forall j | 0 <= j < slots :: SlotBytes(store.memory[..], format, j) == Zeros(LOG_ENTRY_SIZE)
      ensures forall k | EntryOffset(format, slots) <= k < store.memory.Length :: store.memory[k] == old(store.memory[k])
    {
      WriteHeader();
      var i := 0;
      while i < slots
        invariant 0 <= i <= slots
        invariant Valid() && State() == old(State())
        invariant i > 0 ==> !reader.valid
        invariant HeaderOk(store.memory[..], format, slots)
        invariant forall j | 0 <= j < i :: SlotBytes(store.memory[..], format, j) == Zeros(LOG_ENTRY_SIZE)
        invariant forall k | EntryOffset(format, slots) <= k < store.memory.Length :: store.memory[k] == old(store.memory[k])
      {
        ghost var m := store.memory[..];
        ClearLogEntry(i);
        SlotCleared(m, i);
        i := i + 1;
      }
    }

    /** What clearing slot i does to the zeroed prefix, the header and the bytes past the slots. */
    lemma SlotCleared(m: seq<u8>, i: nat)
      requires Valid() && i < slots && |m| == store.memory.Length
      requires store.memory[..] == ClearSlot(m, format, i)
      requires HeaderOk(m, format, slots)
      requires forall j | 0 <= j < i :: SlotBytes(m, format, j) == Zeros(LOG_ENTRY_SIZE)
      ensures HeaderOk(store.memory[..], format, slots)
      ensures forall j | 0 <= j <= i :: SlotBytes(store.memory[..], format, j) == Zeros(LOG_ENTRY_SIZE)
      ensures forall k | EntryOffset(format, slots) <= k < |m| :: store.memory[k] == m[k]
    {
      SlotsFitStore(format, store.sizeBytes, i);
      SpliceSlot(m, format, i, i, Zeros(LOG_ENTRY_SIZE));
      HeaderKept(m, store.memory[..], format, slots);
      forall j | 0 <= j < i ensures SlotBytes(store.memory[..], format, j) == Zeros(LOG_ENTRY_SIZE) {
        SpliceSlot(m, format, i, j, Zeros(LOG_ENTRY_SIZE));
      }
      SlotsDisjoint(format, i, slots);
    }

    /** The magic byte (current layout) and the slot count, each written only where it differs. */
    method WriteHeader()
      requires Valid()
      modifies store.memory
      ensures HeaderOk(store.memory[..], format, slots)
      ensures forall k | EntriesOffset(format) <= k < store.memory.Length :: store.memory[k] == old(store.memory[k])
    {
      if format.Current? {
        var _ := store.Update8(0, MAGIC_NUMBER);
      }
      ghost var m := store.memory[..];
      var _ := store.Update(SlotCountOffset(format), U16Bytes(slots));
      U16RoundTrip(slots);
      assert store.memory[SlotCountOffset(format)..EntriesOffset(format)] == U16Bytes(slots);
    }

    /** init(): a log whose header does not match is cleared and the reason logged;
        otherwise head, tail and lastNotified are rebuilt from the stored timestamps
        and the store is left as it is. */
    method Init(stamp1: nat, stamp2: nat) returns (outcome: InitOutcome)
      requires Valid() && 0 < stamp1 < stamp2 < U32_LIMIT
      modifies this, store.memory
      ensures Valid()
      ensures var check := CheckHeader(old(store.memory[..]), format, slots);
        && (check.BadMagic? ==> outcome == ClearedBadMagic)
        && (check.SizeChanged? ==> outcome == ClearedSizeChange(check.stored))
        && (!check.HeaderIntact? ==>
              var msg := if check.BadMagic? then message(MSG_LOG_MAGIC_NUMBER, 0, 0)
                         else message(MSG_LOG_SIZE_CHG, check.stored, slots);
              && Sound() && !reader.valid
              && State() == Append(ClearedCursors(slots), slots)
              && Contents() == (if slots == 2 then [] else [EntryOf(message(MSG_LOG_INIT, 0, 0), stamp1)]) + [EntryOf(msg, stamp2)])
        && (check.HeaderIntact? ==>
              var r := Recover(old(store.memory[..]), format, slots);
              && store.memory[..] == old(store.memory[..]) && reader == old(reader)
              && (r.Halt? ==> outcome == Halted(r.reason) && State() == old(State()))
              && (r.Recovered? ==> outcome == Resumed(r.timestamp) && State() == r.cursors))
    {
      var countBytes := store.Read(SlotCountOffset(format), 2);
      var stored := U16Of(countBytes);
      var wrongMagic := false;
      if format.Current? {
        var magic := store.Read8(0);
        wrongMagic := magic != MAGIC_NUMBER;
      }
      if wrongMagic || stored != slots {
        outcome := ClearAndReport(wrongMagic, stored, stamp1, stamp2);
        return;
      }
      outcome := Restore();
    }

    /** init() on a header that does not match: clear() and then one message saying why. */
    method ClearAndReport(wrongMagic: bool, stored: nat, stamp1: nat, stamp2: nat) returns (outcome: InitOutcome)
      requires Valid() && 0 < stamp1 < stamp2 < U32_LIMIT
      modifies this, store.memory
      ensures outcome == if wrongMagic then ClearedBadMagic else ClearedSizeChange(stored)
      ensures Valid() && Sound() && !reader.valid
      ensures State() == Append(ClearedCursors(slots), slots)
      ensures var msg := if wrongMagic then message(MSG_LOG_MAGIC_NUMBER, 0, 0)
                         else message(MSG_LOG_SIZE_CHG, stored, slots);
        Contents() == (if slots == 2 then [] else [EntryOf(message(MSG_LOG_INIT, 0, 0), stamp1)]) + [EntryOf(msg, stamp2)]
    {
      Clear(stamp1);
      if wrongMagic {
        var _ := LogMessage(MSG_LOG_MAGIC_NUMBER, 0, 0, stamp2);
        outcome := ClearedBadMagic;
      } else {
        var _ := LogMessage(MSG_LOG_SIZE_CHG, stored, slots, stamp2);
        outcome := ClearedSizeChange(stored);
      }
      AppendCount(ClearedCursors(slots), slots);
    }

    /** init() past the header check: the first cleared slot is head, the slot before
        it the most recent entry (read directly when head is slot 0, remembered from the
        scan otherwise), and the first entry going round from head is tail. A failed
        assertion halts the board; the cursors are then left as they were. */
    method Restore() returns (outcome: InitOutcome)
      requires Valid()
      modifies this`head, this`tail, this`lastNotified
      ensures Valid()
      ensures var r := Recover(old(store.memory[..]), format, slots);
        && (r.Halt? ==> outcome == Halted(r.reason) && State() == old(State()))
        && (r.Recovered? ==> outcome == Resumed(r.timestamp) && State() == r.cursors)
    {
      ghost var m := store.memory[..];
      var h, mostRecentIndex, mostRecentTimestamp := ScanForHead(m);
      if mostRecentIndex == slots {
        return Halted(NoEmptySlot);
      }
      if mostRecentTimestamp == 0 {
        return Halted(NoTimestamp);
      }
      outcome := ResumeFrom(h, mostRecentIndex, mostRecentTimestamp, m);
    }

    /** init() after its first loop found head and a timestamp: the second loop finds
        tail, and the cursors are set. */
    method ResumeFrom(h: nat, mostRecentIndex: nat, mostRecentTimestamp: nat, ghost m: seq<u8>) returns (outcome: InitOutcome)
      requires Valid() && m == store.memory[..] && h < slots && mostRecentIndex == Prev(h, slots)
      requires h == FindHead(m, format, slots, 0)
      requires mostRecentTimestamp == Stamp(m, format, Prev(h, slots)) != 0
      modifies this`head, this`tail, this`lastNotified
      ensures Valid()
      ensures var r := Recover(m, format, slots);
        && (r.Halt? ==> outcome == Halted(r.reason) && State() == old(State()))
        && (r.Recovered? ==> outcome == Resumed(r.timestamp) && State() == r.cursors)
    {
      var t := ScanForTail(h, m);
      if t == slots {
        return Halted(NoTail);
      }
      head, tail, lastNotified := h, t, mostRecentIndex;
      outcome := Resumed(mostRecentTimestamp);
    }

    /** init()'s first loop: the first slot with a zero timestamp is head (slots when
        there is none), and the slot before it holds the most recent entry. */
    method ScanForHead(ghost m: seq<u8>) returns (h: nat, mostRecentIndex: nat, mostRecentTimestamp: nat)
      requires Valid() && m == store.memory[..]
      ensures h == FindHead(m, format, slots, 0)
      ensures h == slots ==> mostRecentIndex == slots
      ensures h < slots ==> mostRecentIndex == Prev(h, slots)
      ensures h < slots ==> mostRecentTimestamp == Stamp(m, format, Prev(h, slots))
    {
      mostRecentIndex := slots;
      mostRecentTimestamp := 0;
      h := slots;
      var i := 0;
      ghost var goal := FindHead(m, format, slots, 0);
      while i < slots
        invariant 0 <= i <= goal
        invariant h == slots && mostRecentIndex == slots
        invariant mostRecentTimestamp == if i == 0 then 0 else Stamp(m, format, i - 1)
      {
        var entry := ReadEntry(i);
        assert entry.timestamp == Stamp(m, format, i);
        if entry.timestamp == 0 {
          assert i == goal;
          h := i;
          mostRecentIndex, mostRecentTimestamp := MostRecentBefore(h, mostRecentTimestamp);
          break;
        }
        mostRecentTimestamp := entry.timestamp;
        i := i + 1;
      }
    }

    /** The entry before an empty slot h: the one the scan just passed, or, when h is
        slot 0, the last slot, read directly. */
    method MostRecentBefore(h: nat, passed: nat) returns (index: nat, timestamp: nat)
      requires Valid() && h < slots
      requires h > 0 ==> passed == Stamp(store.memory[..], format, h - 1)
      ensures index == Prev(h, slots) && timestamp == Stamp(store.memory[..], format, index)
    {
      index := Prev(h, slots);
      timestamp := passed;
      if h == 0 {
        var last := ReadEntry(index);
        timestamp := last.timestamp;
      }
    }

    /** init()'s second loop: going round from head, the first slot with a non-zero
        timestamp is tail (slots when there is none). */
    method ScanForTail(h: nat, ghost m: seq<u8>) returns (t: nat)
      requires Valid() && h < slots && m == store.memory[..]
      ensures var k := FindTail(m, format, slots, h, 1);
        t == if k == slots then slots else RingSlot(h, k, slots)
    {
      ghost var goal := FindTail(m, format, slots, h, 1);
      t := slots;
      var k := 1;
      while k < slots
        invariant 1 <= k <= goal && t == slots
      {
        var index, entry := ProbeSlot(h, k, m);
        if entry.timestamp != 0 {
          assert k == goal by { FindTailSkipsEmpty(m, format, slots, h, 1); }
          t := index;
          break;
        }
        k := k + 1;
      }
    }

    /** The entry k slots after h, at `(h + k) % slots`. */
    method ProbeSlot(h: nat, k: nat, ghost m: seq<u8>) returns (index: nat, entry: LogEntry)
      requires Valid() && h < slots && k < slots && m == store.memory[..]
      ensures index == RingSlot(h, k, slots)
      ensures entry.timestamp == Stamp(m, format, index)
    {
      RingSlotIsMod(h, k, slots);
      index := (h + k) % slots;
      entry := ReadEntry(index);
    }

    /** readMostRecentLogEntries(maxResults) */
    method ReadMostRecentLogEntries(maxResults: nat)
      requires Valid()
      modifies this`reader
      ensures Valid() && (old(Sound()) ==> Sound())
      ensures reader == MostRecentReader(State(), slots, maxResults)
    {
      MostRecentReaderOnRing(State(), slots, maxResults);
      var n := CurrentLogEntries();
      var toRead := if maxResults == 0 then n else if maxResults < n then maxResults else n;
      reader := Reader(MostRecent, true, toRead, 0, Prev(head, slots));
    }

    /** readUnnotifiedLogEntries(): everything after lastNotified up to head. */
    method ReadUnnotifiedLogEntries()
      requires Valid()
      modifies this`reader
      ensures Valid() && (old(Sound()) ==> Sound())
      ensures reader == UnnotifiedReader(State(), slots)
    {
      if Sound() {
        UnnotifiedReaderOnRing(State(), slots);
      }
      var toRead := UnnotifiedCount(State(), slots);
      reader := Reader(Unnotified, true, toRead, 0, Next(lastNotified, slots));
    }

    /** nextLogEntry(entry): while the reader is valid and has entries left, the entry
        at its Position among the stored ones; the most-recent reader steps back round
        the ring, the unnotified reader forward, marking what it returned as notified. */
    method NextLogEntry() returns (ok: bool, entry: LogEntry)
      requires Sound()
      modifies this
      ensures Sound() && Contents() == old(Contents())
      ensures ok <==> old(reader.valid && reader.read < reader.toRead)
      ensures ok ==> 0 <= Position(old(reader), |Contents()|) < |Contents()|
      ensures ok ==> entry == Contents()[Position(old(reader), |Contents()|)]
      ensures ok ==> reader == Advance(old(reader), slots) && State() == Notified(old(reader), old(State()))
      ensures !ok ==> reader == old(reader) && State() == old(State())
    {
      if reader.valid && reader.read < reader.toRead {
        ReaderReadsEntry(store.memory[..], format, slots, reader, State());
        entry := ReadEntry(reader.nextIndex);
        if reader.kind.MostRecent? {
          StepBack();
        } else {
          StepForward();
        }
        ok := true;
      } else {
        entry := LogEntry(0, 0, [0, 0, 0, 0, 0, 0]);
        ok := false;
      }
    }

    /** The most-recent reader after a read: one step back round the ring. */
    method StepBack()
      requires Sound() && reader.valid && reader.read < reader.toRead && reader.kind.MostRecent?
      modifies this`reader
      ensures Sound() && reader == Advance(old(reader), slots)
    {
      AdvanceOnRing(reader, State(), slots);
      reader := reader.(read := reader.read + 1);
      reader := reader.(nextIndex := Prev(reader.nextIndex, slots));
    }

    /** The unnotified reader after a read: the slot read becomes lastNotified, and the
        reader steps forward. */
    method StepForward()
      requires Sound() && reader.valid && reader.read < reader.toRead && reader.kind.Unnotified?
      modifies this`reader, this`lastNotified
      ensures Sound() && reader == Advance(old(reader), slots)
      ensures State() == Notified(old(reader), old(State())) && Contents() == old(Contents())
    {
      NotifyKeepsLayout(store.memory[..], format, slots, reader, State());
      var r := reader.(read := reader.read + 1);
      reader, lastNotified := r.(nextIndex := Next(r.nextIndex, slots)), r.nextIndex;
    }

    /** The entry in slot i, read from the store and decoded. */
    method ReadEntry(i: nat) returns (entry: LogEntry)
      requires Valid() && i < slots
      ensures entry == Decode(SlotBytes(store.memory[..], format, i))
    {
      SlotsFitStore(format, store.sizeBytes, i);
      var bytes := store.Read(EntryOffset(format, i), LOG_ENTRY_SIZE);
      entry := Decode(bytes);
    }
  }

  /** A board reset: a fresh Log over the same store, once init() has run, holds the same
      entries with the same head and tail, counts all of them as notified, and resumes
      the clock from the newest entry. */
  method Reopen(log: Log, stamp1: nat, stamp2: nat) returns (again: Log, outcome: InitOutcome)
    requires log.Sound() && 0 < stamp1 < stamp2 < U32_LIMIT
    modifies log.store.memory
    ensures fresh(again) && again.store == log.store && again.format == log.format
    ensures log.store.memory[..] == old(log.store.memory[..])
    ensures again.Sound() && again.Contents() == log.Contents()
    ensures again.head == log.head && again.tail == log.tail
    ensures UnnotifiedCount(again.State(), again.slots) == 0
    ensures outcome.Resumed?
  {
    ResumeRing(log.store.memory[..], log.format, log.slots, log.State());
    again := new Log(log.store, log.format, log.message);
    outcome := again.Init(stamp1, stamp2);
  }

  /** What init() finds on a store a Log left laid out. */
  lemma ResumeRing(mem: seq<u8>, f: Format, slots: nat, c: Cursors)
    requires RingLayout(mem, f, slots, c) && Size(c, slots) >= 1
    ensures CheckHeader(mem, f, slots).HeaderIntact?
    ensures var r := Recover(mem, f, slots);
      && r == Recovered(c.(lastNotified := Prev(c.head, slots)), Entries(mem, f, slots, c)[Size(c, slots) - 1].timestamp)
      && RingLayout(mem, f, slots, r.cursors) && Entries(mem, f, slots, r.cursors) == Entries(mem, f, slots, c)
  {
    RecoverRing(mem, f, slots, c);
    LayoutIgnoresNotified(mem, f, slots, c, Prev(c.head, slots));
  }
}
