/** The circular log's persistent layout and its ring arithmetic, as pure values:
    where the header and the entry slots sit on the store, how an entry is laid out
    in bytes, how head, tail and the notification cursor move, how the two readers
    walk the ring, and what a restart recovers from the bytes alone. */
module LogLayout {
  import opened Basics
  import opened Store

  /** First byte of the log area once it has been initialised (ACF_Logging.cpp only). */
  const MAGIC_NUMBER: u8 := 199

  /** LOG_DATA_PAYLOAD_SIZE, the default payload size. */
  const LOG_DATA_PAYLOAD_SIZE: nat := 6

  /** sizeof(LogEntry): a uint32 timestamp, a uint8 type and the payload, packed as AVR packs them. */
  const LOG_ENTRY_SIZE: nat := 4 + 1 + LOG_DATA_PAYLOAD_SIZE

  /** The messages the log itself issues. */
  const MSG_LOG_INIT: nat := 2
  const MSG_LOG_MAGIC_NUMBER: nat := 3
  const MSG_LOG_SIZE_CHG: nat := 4

  /** The opaque payload of a log entry. */
  type Payload = s: seq<u8> | |s| == LOG_DATA_PAYLOAD_SIZE witness [0, 0, 0, 0, 0, 0]

  /** A log entry; timestamp 0 marks a cleared slot. */
  datatype LogEntry = LogEntry(timestamp: nat, kind: u8, data: Payload)

  /** What a consumer's logMessage() turns a message into: a type and a payload. */
  datatype Record = Record(kind: u8, data: Payload)

  /** The two layouts: ACF_Logging.cpp (magic byte, then the slot count) and the older
      CF_Logging.cpp (the slot count only). */
  datatype Format = Current | Legacy

  /** Where the uint16 slot count is stored. */
  function SlotCountOffset(f: Format): nat {
    if f.Current? then 1 else 0
  }

  /** LOG_ENTRIES_OFFSET: where slot 0 starts. */
  function EntriesOffset(f: Format): nat {
    SlotCountOffset(f) + 2
  }

  /** logEntrySlots: as many whole entries as fit behind the header. */
  function SlotCount(f: Format, size: nat): (n: nat)
    requires size >= EntriesOffset(f)
    ensures EntriesOffset(f) + n * 11 <= size < EntriesOffset(f) + (n + 1) * 11
  {
    (size - EntriesOffset(f)) / 11
  }

  /** entryOffset(index). The slot arithmetic writes LOG_ENTRY_SIZE as its value, 11,
      which keeps it linear for the solver. */
  function EntryOffset(f: Format, i: nat): nat {
    EntriesOffset(f) + i * 11
  }

  /** Slots never overlap each other or the header. */
  lemma SlotsDisjoint(f: Format, i: nat, j: nat)
    requires i < j
    ensures EntriesOffset(f) <= EntryOffset(f, i)
    ensures EntryOffset(f, i) + LOG_ENTRY_SIZE <= EntryOffset(f, j)
  {
  }

  /** The bytes of a store of `size` bytes hold the header and `slots` entries. */
  predicate Fits(f: Format, slots: nat, size: nat) {
    EntriesOffset(f) + slots * 11 <= size
  }

  /** Every slot of the computed slot count lies inside the store. */
  lemma SlotsFitStore(f: Format, size: nat, i: nat)
    requires size >= EntriesOffset(f) && i < SlotCount(f, size)
    ensures Fits(f, SlotCount(f, size), size)
    ensures EntryOffset(f, i) + LOG_ENTRY_SIZE <= size
  {
  }

  // ---------------------------------------------------------------- entries in bytes

  predicate WellFormed(e: LogEntry) {
    e.timestamp < U32_LIMIT
  }

  /** A LogEntry as it sits in memory: the timestamp little-endian, the type, the payload. */
  function Encode(e: LogEntry): (b: seq<u8>)
    requires WellFormed(e)
    ensures |b| == LOG_ENTRY_SIZE
  {
    U32Bytes(e.timestamp) + [e.kind] + e.data
  }

  function Decode(b: seq<u8>): (e: LogEntry)
    requires |b| == LOG_ENTRY_SIZE
    ensures WellFormed(e)
  {
    LogEntry(U32Of(b[..4]), b[4], b[5..])
  }

  lemma {:induction false} DecodeEncode(e: LogEntry)
    requires WellFormed(e)
    ensures Decode(Encode(e)) == e
  {
    var b := Encode(e);
    assert b[..4] == U32Bytes(e.timestamp);
    U32RoundTrip(e.timestamp);
    assert b[5..] == e.data;
  }

  lemma {:induction false} EncodeDecode(b: seq<u8>)
    requires |b| == LOG_ENTRY_SIZE
    ensures Encode(Decode(b)) == b
  {
    U32BytesRoundTrip(b[..4]);
    assert b == b[..4] + [b[4]] + b[5..];
  }

  /** A cleared slot reads as timestamp 0, and an entry with a real timestamp is never
      all zero bytes. */
  lemma {:induction false} ClearedSlotIsEmpty(e: LogEntry)
    requires WellFormed(e)
    ensures Decode(Zeros(LOG_ENTRY_SIZE)).timestamp == 0
    ensures e.timestamp != 0 ==> Encode(e) != Zeros(LOG_ENTRY_SIZE)
  {
    var z := Zeros(LOG_ENTRY_SIZE);
    U32ZeroIffZeroBytes(z[..4]);
    if e.timestamp != 0 {
      var b := Encode(e);
      assert b[..4] == U32Bytes(e.timestamp);
      U32RoundTrip(e.timestamp);
      U32ZeroIffZeroBytes(b[..4]);
      assert b[..4] != z[..4];
    }
  }

  // ---------------------------------------------------------------- ring arithmetic

  /** `(i + 1) % logEntrySlots` */
  function Next(i: nat, slots: nat): (r: nat)
    requires i < slots
    ensures r < slots && r == if i + 1 < slots then i + 1 else 0
  {
    (i + 1) % slots
  }

  /** `(logEntrySlots + i - 1) % logEntrySlots` */
  function Prev(i: nat, slots: nat): (r: nat)
    requires i < slots
    ensures r < slots && r == if i > 0 then i - 1 else slots - 1
  {
    (slots + i - 1) % slots
  }

  /** The slot `p` places after slot `from`, going round the ring. */
  function RingSlot(from: nat, p: nat, slots: nat): (r: nat)
    requires from < slots && p < slots
    ensures r < slots
  {
    if from + p < slots then from + p else from + p - slots
  }

  /** How many places after `from` slot `i` lies: RingSlot's inverse. */
  function Distance(from: nat, i: nat, slots: nat): (p: nat)
    requires from < slots && i < slots
    ensures p < slots && RingSlot(from, p, slots) == i
    ensures forall q | 0 <= q < slots && RingSlot(from, q, slots) == i :: q == p
  {
    if i >= from then i - from else i + slots - from
  }

  lemma RingSlotCompose(from: nat, a: nat, b: nat, slots: nat)
    requires from < slots && a < slots && b < slots
    ensures a + b < slots ==> RingSlot(RingSlot(from, a, slots), b, slots) == RingSlot(from, a + b, slots)
    ensures a + b >= slots ==> RingSlot(RingSlot(from, a, slots), b, slots) == RingSlot(from, a + b - slots, slots)
  {
  }

  lemma RingSlotStep(from: nat, p: nat, slots: nat)
    requires from < slots && p + 1 < slots
    ensures Next(RingSlot(from, p, slots), slots) == RingSlot(from, p + 1, slots)
    ensures Prev(RingSlot(from, p + 1, slots), slots) == RingSlot(from, p, slots)
    ensures RingSlot(Next(from, slots), p, slots) == RingSlot(from, p + 1, slots)
  {
  }

  /** currentLogEntries(): the number of entries from tail up to head. */
  function Count(head: nat, tail: nat, slots: nat): (n: nat)
    requires head < slots && tail < slots
    ensures n < slots && RingSlot(tail, n, slots) == head
  {
    if head == tail then 0
    else if head > tail then head - tail
    else slots - (tail - head)
  }

  /** currentLogEntries() is the distance from tail to head, `(head - tail) mod slots`,
      and so at most maxLogEntries() = slots - 1. */
  lemma CountIsModularDistance(head: nat, tail: nat, slots: nat)
    requires head < slots && tail < slots
    ensures Count(head, tail, slots) == (head - tail) % slots
    ensures Count(head, tail, slots) == Distance(tail, head, slots)
    ensures Count(head, tail, slots) <= slots - 1
  {
  }

  // ---------------------------------------------------------------- cursors

  /** logHeadIndex, logTailIndex, lastNotifiedLogEntryIndex */
  datatype Cursors = Cursors(head: nat, tail: nat, lastNotified: nat)

  predicate InRange(c: Cursors, slots: nat) {
    c.head < slots && c.tail < slots && c.lastNotified < slots
  }

  function Size(c: Cursors, slots: nat): (n: nat)
    requires InRange(c, slots)
    ensures n < slots
  {
    Count(c.head, c.tail, slots)
  }

  /** The toRead of readUnnotifiedLogEntries(): the entries after lastNotified, up to head. */
  function UnnotifiedCount(c: Cursors, slots: nat): (n: nat)
    requires InRange(c, slots)
    ensures n < slots && RingSlot(c.lastNotified, n, slots) == Prev(c.head, slots)
  {
    if c.head > c.lastNotified then c.head - c.lastNotified - 1
    else slots - (c.lastNotified - c.head) - 1
  }

  /** The cursors right after clear(): one entry at slot 0, and lastNotified the slot before it. */
  function ClearedCursors(slots: nat): (c: Cursors)
    requires slots >= 2
    ensures InRange(c, slots) && Size(c, slots) == 1 && UnnotifiedCount(c, slots) == 1
  {
    Cursors(1, 0, slots - 1)
  }

  /** addLogEntry() as written: head moves on, and tail moves on when head reaches it. */
  function AppendAsWritten(c: Cursors, slots: nat): Cursors
    requires InRange(c, slots)
  {
    var h := Next(c.head, slots);
    Cursors(h, if h == c.tail then Next(c.tail, slots) else c.tail, c.lastNotified)
  }

  /** addLogEntry(), with lastNotified carried along when the slot it marks is the one
      being written over: it then becomes the slot before the new tail. */
  function Append(c: Cursors, slots: nat): (r: Cursors)
    requires InRange(c, slots)
    ensures InRange(r, slots)
    ensures r.head == AppendAsWritten(c, slots).head && r.tail == AppendAsWritten(c, slots).tail
  {
    var h := Next(c.head, slots);
    if h == c.tail then Cursors(h, Next(c.tail, slots), if c.lastNotified == c.head then c.tail else c.lastNotified)
    else Cursors(h, c.tail, c.lastNotified)
  }

  /** An append adds one entry until the ring holds maxLogEntries(); from then on the
      oldest entry makes room and the count stays there. */
  lemma AppendCount(c: Cursors, slots: nat)
    requires InRange(c, slots) && slots >= 2
    ensures Size(Append(c, slots), slots) == if Size(c, slots) == slots - 1 then slots - 1 else Size(c, slots) + 1
    ensures Size(AppendAsWritten(c, slots), slots) == Size(Append(c, slots), slots)
  {
  }

  /** With lastNotified carried along, every append adds an unnotified entry, and the
      unnotified entries only shrink when the ring runs out of room. */
  lemma AppendKeepsUnnotified(c: Cursors, slots: nat)
    requires InRange(c, slots) && slots >= 2
    requires UnnotifiedCount(c, slots) <= Size(c, slots)
    ensures var r := Append(c, slots);
      UnnotifiedCount(r, slots) == if UnnotifiedCount(c, slots) == slots - 1 then slots - 1 else UnnotifiedCount(c, slots) + 1
    ensures UnnotifiedCount(Append(c, slots), slots) <= Size(Append(c, slots), slots)
  {
  }

  /** As written, a full ring whose entries are all unnotified reports none unnotified
      after one more append: clear() and two appends on four slots leave three
      unnotified entries, and the next append makes readUnnotifiedLogEntries() return 0. */
  lemma AppendAsWrittenForgetsUnnotified()
    ensures var c := AppendAsWritten(AppendAsWritten(ClearedCursors(4), 4), 4);
      && Size(c, 4) == 3 && UnnotifiedCount(c, 4) == 3
      && var d := AppendAsWritten(c, 4);
         Size(d, 4) == 3 && UnnotifiedCount(d, 4) == 0
  {
    assert ClearedCursors(4) == Cursors(1, 0, 3);
    assert AppendAsWritten(Cursors(1, 0, 3), 4) == Cursors(2, 0, 3);
    assert AppendAsWritten(Cursors(2, 0, 3), 4) == Cursors(3, 0, 3);
    assert AppendAsWritten(Cursors(3, 0, 3), 4) == Cursors(0, 1, 3);
  }

  /** The same four appends with lastNotified carried along: the three entries still
      waiting stay unnotified. */
  lemma AppendRemembersUnnotified()
    ensures var c := Append(Append(ClearedCursors(4), 4), 4);
      UnnotifiedCount(c, 4) == 3 && UnnotifiedCount(Append(c, 4), 4) == 3
  {
    assert ClearedCursors(4) == Cursors(1, 0, 3);
    assert Append(Cursors(1, 0, 3), 4) == Cursors(2, 0, 3);
    assert Append(Cursors(2, 0, 3), 4) == Cursors(3, 0, 3);
    assert Append(Cursors(3, 0, 3), 4) == Cursors(0, 1, 0);
  }

  // ---------------------------------------------------------------- readers

  datatype ReaderKind = MostRecent | Unnotified

  /** LogReader; its other fields mean something only while `valid`. */
  datatype Reader = Reader(kind: ReaderKind, valid: bool, toRead: nat, read: nat, nextIndex: nat)

  /** readMostRecentLogEntries(maxResults): at most maxResults entries (all for 0), from
      the slot before head backwards. */
  function MostRecentReader(c: Cursors, slots: nat, maxResults: nat): (r: Reader)
    requires InRange(c, slots)
    ensures r.valid && r.read == 0 && r.toRead <= Size(c, slots)
    ensures r.toRead == if maxResults == 0 || Size(c, slots) <= maxResults then Size(c, slots) else maxResults
  {
    var n := Size(c, slots);
    Reader(MostRecent, true, if maxResults == 0 then n else if maxResults < n then maxResults else n, 0, Prev(c.head, slots))
  }

  /** readUnnotifiedLogEntries(): every entry after lastNotified, oldest first. */
  function UnnotifiedReader(c: Cursors, slots: nat): (r: Reader)
    requires InRange(c, slots)
    ensures r.valid && r.read == 0 && r.toRead == UnnotifiedCount(c, slots)
  {
    Reader(Unnotified, true, UnnotifiedCount(c, slots), 0, Next(c.lastNotified, slots))
  }

  /** C++ `a % b` on int: the remainder truncated toward zero. */
  function TruncRem(a: int, b: nat): int
    requires b > 0
  {
    if a >= 0 then a % b else -((-a) % b)
  }

  /** Conversion of an int to uint16_t. */
  function ToU16(a: int): (r: nat)
    ensures r < U16_LIMIT
  {
    a % U16_LIMIT
  }

  /** Width of C++ `int` on the target: 16 bits on AVR, 32 bits on ARM. It decides how
      the uint16_t operands of `reader.nextIndex - 1` are promoted. */
  datatype IntWidth = Int16 | Int32

  /** The most-recent reader's step as written: `(reader.nextIndex - 1) % logEntrySlots`,
      stored into a uint16_t. With a 32-bit int the operands promote to int, so from 0
      the difference is -1 and the truncating remainder is -1. With a 16-bit int they
      promote to unsigned int, so from 0 the difference is 65535. */
  function StepBackAsWritten(w: IntWidth, i: nat, slots: nat): nat
    requires slots > 0
  {
    match w
    case Int32 => ToU16(TruncRem(i - 1, slots))
    case Int16 => ToU16(ToU16(i - 1) % slots)
  }

  /** On both widths the step agrees with Prev except from slot 0. There a 32-bit int
      leaves the ring for slot 65535; a 16-bit int stays on the ring at 65535 % slots,
      which is the last slot exactly when the slot count divides 65536. */
  lemma StepBackAsWrittenMissteps(w: IntWidth, i: nat, slots: nat)
    requires 2 <= slots < U16_LIMIT && i < slots
    ensures i > 0 ==> StepBackAsWritten(w, i, slots) == Prev(i, slots)
    ensures w.Int32? && i == 0 ==> StepBackAsWritten(w, i, slots) == U16_LIMIT - 1 >= slots
    ensures w.Int16? && i == 0 ==>
      && StepBackAsWritten(w, i, slots) == (U16_LIMIT - 1) % slots < slots
      && (StepBackAsWritten(w, i, slots) == Prev(i, slots) <==> U16_LIMIT % slots == 0)
  {
    if i > 0 {
      StepBackInside(w, i, slots);
    } else if w.Int32? {
      StepBackFromZero(slots);
    } else {
      WrapDividesLimit(slots);
    }
  }

  lemma StepBackInside(w: IntWidth, i: nat, slots: nat)
    requires 0 < i < slots < U16_LIMIT
    ensures StepBackAsWritten(w, i, slots) == i - 1
  {
    assert TruncRem(i - 1, slots) == i - 1;
    assert ToU16(i - 1) == i - 1;
  }

  lemma StepBackFromZero(slots: nat)
    requires 2 <= slots
    ensures StepBackAsWritten(Int32, 0, slots) == U16_LIMIT - 1
  {
    assert TruncRem(-1, slots) == -1 by {
      assert 1 % slots == 1;
    }
  }

  /** 65535 % slots is the last slot exactly when slots divides 65536. */
  lemma WrapDividesLimit(slots: nat)
    requires 2 <= slots < U16_LIMIT
    ensures (U16_LIMIT - 1) % slots == slots - 1 <==> U16_LIMIT % slots == 0
  {
    var q, r := (U16_LIMIT - 1) / slots, (U16_LIMIT - 1) % slots;
    assert U16_LIMIT == q * slots + r + 1;
    if r == slots - 1 {
      assert U16_LIMIT == (q + 1) * slots;
      MultipleMod(q + 1, slots);
    } else {
      assert r + 1 < slots;
      ModOfSum(q, slots, r + 1);
    }
  }

  lemma MultipleMod(k: nat, m: nat)
    requires m > 0
    ensures (k * m) % m == 0
  {
    ModOfSum(k, m, 0);
  }

  lemma ModOfSum(k: nat, m: nat, r: nat)
    requires r < m
    ensures (k * m + r) % m == r
  {
    var n := k * m + r;
    var q, r' := n / m, n % m;
    assert n == q * m + r';
    if q < k {
      TooFarApart(k - q, m, r, r');
    } else if q > k {
      TooFarApart(q - k, m, r', r);
    }
  }

  /** Two remainders below m cannot differ by a positive multiple of m. */
  lemma TooFarApart(d: nat, m: nat, lo: nat, hi: nat)
    requires d >= 1 && m > 0 && lo < m && hi < m
    ensures d * m + lo != hi
  {
    assert d * m == (d - 1) * m + m;
    assert (d - 1) * m >= 0;
  }

  /** A full ring with head at 1 and tail at 2: the most-recent reader starts at slot 0
      and must step back to the last slot.
      AVR (16-bit int, 11-byte entries), 5 slots: the step from 0 lands on slot 0 again
      instead of slot 4, so every later read returns the newest entry once more.
      ARM (32-bit int, entries padded to 12 bytes), 4 slots: the step lands on slot 65535,
      whose uint16 entryOffset 3 + 65535 * 12 wraps to 65527, past a 51-byte store. */
  lemma MostRecentAsWrittenMissteps()
    ensures var c := Cursors(1, 2, 0);
      var r := MostRecentReader(c, 5, 0);
      Size(c, 5) == 4 && r.toRead == 4 && r.nextIndex == 0
      && StepBackAsWritten(Int16, r.nextIndex, 5) == 0 && Prev(r.nextIndex, 5) == 4
    ensures var c := Cursors(1, 2, 0);
      var r := MostRecentReader(c, 4, 0);
      var stepped := StepBackAsWritten(Int32, r.nextIndex, 4);
      Size(c, 4) == 3 && r.toRead == 3 && r.nextIndex == 0
      && stepped == 65535 && ToU16(3 + stepped * 12) == 65527 > 3 + 4 * 12
  {
  }

  /** nextLogEntry() after a successful read: the most-recent reader steps back round
      the ring, the unnotified reader steps forward. */
  function Advance(r: Reader, slots: nat): (a: Reader)
    requires r.nextIndex < slots
    ensures a.nextIndex < slots && a.read == r.read + 1
    ensures a.kind == r.kind && a.valid == r.valid && a.toRead == r.toRead
  {
    r.(read := r.read + 1, nextIndex := if r.kind.MostRecent? then Prev(r.nextIndex, slots) else Next(r.nextIndex, slots))
  }

  /** The ring position (0 = oldest) of the entry a reader returns next: the most-recent
      reader walks from the newest down, the unnotified reader from the first unnotified up. */
  function Position(r: Reader, n: nat): int {
    if r.kind.MostRecent? then n - 1 - r.read else n - r.toRead + r.read
  }

  /** A valid reader walks the stored entries: it will not read past them, its next
      slot is the entry at its Position, and the unnotified reader keeps lastNotified
      right behind its next slot. */
  ghost predicate ReaderOnRing(r: Reader, c: Cursors, slots: nat)
    requires InRange(c, slots)
  {
    r.valid ==>
      && r.read <= r.toRead <= Size(c, slots)
      && (r.kind.MostRecent? && r.read < r.toRead ==>
            r.nextIndex == RingSlot(c.tail, Size(c, slots) - 1 - r.read, slots))
      && (r.kind.Unnotified? ==>
            && r.nextIndex == RingSlot(c.tail, Size(c, slots) - r.toRead + r.read, slots)
            && c.lastNotified == Prev(r.nextIndex, slots))
  }

  lemma MostRecentReaderOnRing(c: Cursors, slots: nat, maxResults: nat)
    requires InRange(c, slots)
    ensures ReaderOnRing(MostRecentReader(c, slots, maxResults), c, slots)
  {
    var n := Size(c, slots);
    if n > 0 {
      RingSlotStep(c.tail, n - 1, slots);
    }
  }

  lemma UnnotifiedReaderOnRing(c: Cursors, slots: nat)
    requires InRange(c, slots) && UnnotifiedCount(c, slots) <= Size(c, slots)
    ensures ReaderOnRing(UnnotifiedReader(c, slots), c, slots)
  {
  }

  /** The cursors after a successful read: the unnotified reader marks the slot it read. */
  function Notified(r: Reader, c: Cursors): Cursors {
    if r.kind.Unnotified? then c.(lastNotified := r.nextIndex) else c
  }

  /** One successful read keeps the reader on the ring and the unnotified count within
      the stored entries. */
  lemma AdvanceOnRing(r: Reader, c: Cursors, slots: nat)
    requires InRange(c, slots) && r.nextIndex < slots
    requires ReaderOnRing(r, c, slots) && r.valid && r.read < r.toRead
    requires UnnotifiedCount(c, slots) <= Size(c, slots)
    ensures InRange(Notified(r, c), slots)
    ensures ReaderOnRing(Advance(r, slots), Notified(r, c), slots)
    ensures UnnotifiedCount(Notified(r, c), slots) <= Size(Notified(r, c), slots)
  {
    if r.kind.MostRecent? {
      StepBackOnRing(r, c, slots);
    } else {
      StepForwardOnRing(r, c, slots);
    }
  }

  lemma StepBackOnRing(r: Reader, c: Cursors, slots: nat)
    requires InRange(c, slots) && r.nextIndex < slots && r.kind.MostRecent?
    requires ReaderOnRing(r, c, slots) && r.valid && r.read < r.toRead
    ensures ReaderOnRing(Advance(r, slots), c, slots)
  {
    if r.read + 1 < r.toRead {
      RingSlotStep(c.tail, Size(c, slots) - 2 - r.read, slots);
    }
  }

  lemma StepForwardOnRing(r: Reader, c: Cursors, slots: nat)
    requires InRange(c, slots) && r.nextIndex < slots && r.kind.Unnotified?
    requires ReaderOnRing(r, c, slots) && r.valid && r.read < r.toRead
    ensures var c' := c.(lastNotified := r.nextIndex);
      && InRange(c', slots) && ReaderOnRing(Advance(r, slots), c', slots)
      && UnnotifiedCount(c', slots) <= Size(c', slots)
  {
    RingSlotStep(c.tail, Size(c, slots) - r.toRead + r.read, slots);
  }

  /** Once the unnotified reader has returned everything, nothing is left unnotified:
      an immediate second readUnnotifiedLogEntries() returns 0 entries. */
  lemma ConsumedReaderLeavesNothingUnnotified(r: Reader, c: Cursors, slots: nat)
    requires InRange(c, slots) && ReaderOnRing(r, c, slots)
    requires r.valid && r.kind.Unnotified? && r.read == r.toRead
    ensures UnnotifiedCount(c, slots) == 0
    ensures UnnotifiedReader(c, slots).toRead == 0
  {
  }

  // ---------------------------------------------------------------- the log on the store

  /** The bytes of slot i. */
  function SlotBytes(mem: seq<u8>, f: Format, i: nat): (b: seq<u8>)
    requires EntryOffset(f, i) + LOG_ENTRY_SIZE <= |mem|
    ensures |b| == LOG_ENTRY_SIZE
  {
    mem[EntryOffset(f, i)..EntryOffset(f, i) + LOG_ENTRY_SIZE]
  }

  /** The timestamp stored in slot i; 0 for a cleared slot. */
  function Stamp(mem: seq<u8>, f: Format, i: nat): nat
    requires EntryOffset(f, i) + LOG_ENTRY_SIZE <= |mem|
  {
    Decode(SlotBytes(mem, f, i)).timestamp
  }

  /** Writing the bytes of slot i changes that slot only, never the header or another slot. */
  lemma SpliceSlot(mem: seq<u8>, f: Format, i: nat, j: nat, b: seq<u8>)
    requires |b| == LOG_ENTRY_SIZE
    requires EntryOffset(f, i) + LOG_ENTRY_SIZE <= |mem| && EntryOffset(f, j) + LOG_ENTRY_SIZE <= |mem|
    ensures SlotBytes(Splice(mem, EntryOffset(f, i), b), f, i) == b
    ensures i != j ==> SlotBytes(Splice(mem, EntryOffset(f, i), b), f, j) == SlotBytes(mem, f, j)
    ensures Splice(mem, EntryOffset(f, i), b)[..EntriesOffset(f)] == mem[..EntriesOffset(f)]
  {
    var r := Splice(mem, EntryOffset(f, i), b);
    var oj := EntryOffset(f, j);
    if i < j {
      SlotsDisjoint(f, i, j);
    } else if j < i {
      SlotsDisjoint(f, j, i);
    }
    if i != j {
      assert forall k | oj <= k < oj + LOG_ENTRY_SIZE :: r[k] == mem[k];
    }
  }

  /** clearLogEntry(i) on the store. */
  function ClearSlot(mem: seq<u8>, f: Format, i: nat): seq<u8>
    requires EntryOffset(f, i) + LOG_ENTRY_SIZE <= |mem|
  {
    Splice(mem, EntryOffset(f, i), Zeros(LOG_ENTRY_SIZE))
  }

  /** `store->update(entryOffset(i), entry)` */
  function WriteSlot(mem: seq<u8>, f: Format, i: nat, e: LogEntry): seq<u8>
    requires EntryOffset(f, i) + LOG_ENTRY_SIZE <= |mem| && WellFormed(e)
  {
    Splice(mem, EntryOffset(f, i), Encode(e))
  }

  /** addLogEntry() on the store: the entry goes to head, then the slot after it is cleared. */
  function AppendImage(mem: seq<u8>, f: Format, slots: nat, c: Cursors, e: LogEntry): (r: seq<u8>)
    requires Fits(f, slots, |mem|) && InRange(c, slots) && WellFormed(e)
    ensures |r| == |mem|
  {
    ClearSlot(WriteSlot(mem, f, c.head, e), f, Next(c.head, slots))
  }

  /** addLogEntry() touches no byte past the last slot. */
  lemma AppendImageKeepsRest(mem: seq<u8>, f: Format, slots: nat, c: Cursors, e: LogEntry)
    requires Fits(f, slots, |mem|) && InRange(c, slots) && WellFormed(e)
    ensures forall k | EntryOffset(f, slots) <= k < |mem| :: AppendImage(mem, f, slots, c, e)[k] == mem[k]
  {
    SlotsDisjoint(f, c.head, slots);
    SlotsDisjoint(f, Next(c.head, slots), slots);
  }

  /** The entries from tail up to head, oldest first. */
  ghost function Entries(mem: seq<u8>, f: Format, slots: nat, c: Cursors): (es: seq<LogEntry>)
    requires Fits(f, slots, |mem|) && InRange(c, slots)
    ensures |es| == Size(c, slots)
  {
    seq(Size(c, slots), p requires 0 <= p < Size(c, slots) => Decode(SlotBytes(mem, f, RingSlot(c.tail, p, slots))))
  }

  /** The magic byte (current layout only) and the slot count the log was cleared with. */
  ghost predicate HeaderOk(mem: seq<u8>, f: Format, slots: nat) {
    && |mem| >= EntriesOffset(f)
    && (f.Current? ==> mem[0] == MAGIC_NUMBER)
    && U16Of(mem[SlotCountOffset(f)..EntriesOffset(f)]) == slots
  }

  /** Every stored entry carries a real timestamp, and timestamps rise from the oldest
      entry to the newest. */
  ghost predicate Stored(es: seq<LogEntry>) {
    && (forall k | 0 <= k < |es| :: es[k].timestamp != 0)
    && (forall j, k | 0 <= j < k < |es| :: es[j].timestamp < es[k].timestamp)
  }

  /** The persistent state clear() and addLogEntry() maintain: the header, the entries
      from tail up to head, every other slot (head's among them) cleared, and tail still
      at slot 0 until the ring first fills up. */
  ghost predicate RingLayout(mem: seq<u8>, f: Format, slots: nat, c: Cursors) {
    && slots >= 2 && Fits(f, slots, |mem|) && InRange(c, slots) && HeaderOk(mem, f, slots)
    && (c.tail == 0 || Size(c, slots) == slots - 1)
    && Stored(Entries(mem, f, slots, c))
    && forall p | Size(c, slots) <= p < slots ::
         SlotBytes(mem, f, RingSlot(c.tail, p, slots)) == Zeros(LOG_ENTRY_SIZE)
  }

  /** clear() after zeroing every slot and resetting head and tail: an empty ring. */
  lemma ZeroedRingLayout(mem: seq<u8>, f: Format, slots: nat, ln: nat)
    requires slots >= 2 && Fits(f, slots, |mem|) && HeaderOk(mem, f, slots) && ln < slots
    requires forall j | 0 <= j < slots :: SlotBytes(mem, f, j) == Zeros(LOG_ENTRY_SIZE)
    ensures RingLayout(mem, f, slots, Cursors(0, 0, ln))
    ensures Entries(mem, f, slots, Cursors(0, 0, ln)) == []
  {
    forall p | 0 <= p < slots ensures SlotBytes(mem, f, RingSlot(0, p, slots)) == Zeros(LOG_ENTRY_SIZE) {
      assert RingSlot(0, p, slots) == p;
    }
  }

  /** `(logHeadIndex + i) % logEntrySlots`, the slot init() probes for tail, is RingSlot. */
  lemma RingSlotIsMod(from: nat, p: nat, slots: nat)
    requires from < slots && p < slots
    ensures (from + p) % slots == RingSlot(from, p, slots)
  {
    if from + p >= slots {
      assert from + p == slots + RingSlot(from, p, slots);
    }
  }

  /** The layout and the entries do not depend on lastNotified. */
  lemma LayoutIgnoresNotified(mem: seq<u8>, f: Format, slots: nat, c: Cursors, ln: nat)
    requires RingLayout(mem, f, slots, c) && ln < slots
    ensures RingLayout(mem, f, slots, c.(lastNotified := ln))
    ensures Entries(mem, f, slots, c.(lastNotified := ln)) == Entries(mem, f, slots, c)
  {
  }

  /** A valid reader with entries left reads the stored entry at its Position. */
  lemma ReaderReadsEntry(mem: seq<u8>, f: Format, slots: nat, r: Reader, c: Cursors)
    requires Fits(f, slots, |mem|) && InRange(c, slots) && ReaderOnRing(r, c, slots)
    requires r.valid && r.read < r.toRead
    ensures 0 <= Position(r, Size(c, slots)) < Size(c, slots) && r.nextIndex < slots
    ensures Entries(mem, f, slots, c)[Position(r, Size(c, slots))] == Decode(SlotBytes(mem, f, r.nextIndex))
  {
  }

  /** One read by the unnotified reader: lastNotified moves to the slot read, which
      changes neither the layout nor the entries, and the reader stays on the ring. */
  lemma NotifyKeepsLayout(mem: seq<u8>, f: Format, slots: nat, r: Reader, c: Cursors)
    requires RingLayout(mem, f, slots, c) && ReaderOnRing(r, c, slots)
    requires r.valid && r.read < r.toRead && r.kind.Unnotified? && r.nextIndex < slots
    requires UnnotifiedCount(c, slots) <= Size(c, slots)
    ensures var c' := Notified(r, c);
      && RingLayout(mem, f, slots, c') && Entries(mem, f, slots, c') == Entries(mem, f, slots, c)
      && ReaderOnRing(Advance(r, slots), c', slots)
      && Size(c', slots) == Size(c, slots) && UnnotifiedCount(c', slots) <= Size(c', slots)
  {
    AdvanceOnRing(r, c, slots);
    LayoutIgnoresNotified(mem, f, slots, c, r.nextIndex);
  }

  lemma RingSlotInjective(from: nat, p: nat, q: nat, slots: nat)
    requires from < slots && p < slots && q < slots && p != q
    ensures RingSlot(from, p, slots) != RingSlot(from, q, slots)
  {
  }

  /** What addLogEntry() does to the slots: head holds the entry, the slot after it is
      cleared, and the header and every other slot are as they were. */
  lemma AppendSlots(mem: seq<u8>, f: Format, slots: nat, c: Cursors, e: LogEntry)
    requires slots >= 2 && Fits(f, slots, |mem|) && InRange(c, slots) && WellFormed(e)
    ensures var r := AppendImage(mem, f, slots, c, e);
      && SlotBytes(r, f, c.head) == Encode(e)
      && SlotBytes(r, f, Next(c.head, slots)) == Zeros(LOG_ENTRY_SIZE)
      && r[..EntriesOffset(f)] == mem[..EntriesOffset(f)]
      && forall j | 0 <= j < slots && j != c.head && j != Next(c.head, slots) :: SlotBytes(r, f, j) == SlotBytes(mem, f, j)
  {
    var h, h' := c.head, Next(c.head, slots);
    var w := WriteSlot(mem, f, h, e);
    var r := ClearSlot(w, f, h');
    SpliceSlot(mem, f, h, h', Encode(e));
    SpliceSlot(w, f, h', h, Zeros(LOG_ENTRY_SIZE));
    forall j | 0 <= j < slots && j != h && j != h'
      ensures SlotBytes(r, f, j) == SlotBytes(mem, f, j)
    {
      SpliceSlot(mem, f, h, j, Encode(e));
      SpliceSlot(w, f, h', j, Zeros(LOG_ENTRY_SIZE));
    }
  }

  lemma HeaderKept(mem: seq<u8>, r: seq<u8>, f: Format, slots: nat)
    requires HeaderOk(mem, f, slots) && |r| == |mem| && r[..EntriesOffset(f)] == mem[..EntriesOffset(f)]
    ensures HeaderOk(r, f, slots)
  {
    assert r[SlotCountOffset(f)..EntriesOffset(f)] == r[..EntriesOffset(f)][SlotCountOffset(f)..];
    assert mem[SlotCountOffset(f)..EntriesOffset(f)] == mem[..EntriesOffset(f)][SlotCountOffset(f)..];
    if f.Current? {
      assert r[0] == r[..EntriesOffset(f)][0];
      assert mem[0] == mem[..EntriesOffset(f)][0];
    }
  }

  /** addLogEntry() keeps the layout: the new entry joins the newest end, and once the
      ring is full the oldest entry makes room for it. */
  lemma AppendKeepsLayout(mem: seq<u8>, f: Format, slots: nat, c: Cursors, e: LogEntry)
    requires RingLayout(mem, f, slots, c) && WellFormed(e) && e.timestamp != 0
    requires forall k | 0 <= k < Size(c, slots) :: Entries(mem, f, slots, c)[k].timestamp < e.timestamp
    ensures var r := AppendImage(mem, f, slots, c, e);
      && RingLayout(r, f, slots, Append(c, slots))
      && Entries(r, f, slots, Append(c, slots))
         == (if Size(c, slots) == slots - 1 then Entries(mem, f, slots, c)[1..] else Entries(mem, f, slots, c)) + [e]
  {
    var r := AppendImage(mem, f, slots, c, e);
    AppendSlots(mem, f, slots, c, e);
    DecodeEncode(e);
    HeaderKept(mem, r, f, slots);
    if Size(c, slots) == slots - 1 {
      AppendWhenFull(mem, r, f, slots, c, e);
    } else {
      AppendWithRoom(mem, r, f, slots, c, e);
    }
  }

  /** A later, real timestamp keeps the entries stored in rising order. */
  lemma StoredExtend(es: seq<LogEntry>, e: LogEntry, drop: bool)
    requires Stored(es) && e.timestamp != 0 && (drop ==> |es| >= 1)
    requires forall k | 0 <= k < |es| :: es[k].timestamp < e.timestamp
    ensures Stored((if drop then es[1..] else es) + [e])
  {
    var kept := if drop then es[1..] else es;
    assert forall k | 0 <= k < |kept| :: kept[k] in es;
  }

  lemma AppendWithRoom(mem: seq<u8>, r: seq<u8>, f: Format, slots: nat, c: Cursors, e: LogEntry)
    requires RingLayout(mem, f, slots, c) && WellFormed(e) && e.timestamp != 0
    requires forall k | 0 <= k < Size(c, slots) :: Entries(mem, f, slots, c)[k].timestamp < e.timestamp
    requires Size(c, slots) < slots - 1 && |r| == |mem| && HeaderOk(r, f, slots)
    requires SlotBytes(r, f, c.head) == Encode(e) && Decode(Encode(e)) == e
    requires SlotBytes(r, f, Next(c.head, slots)) == Zeros(LOG_ENTRY_SIZE)
    requires forall j | 0 <= j < slots && j != c.head && j != Next(c.head, slots) :: SlotBytes(r, f, j) == SlotBytes(mem, f, j)
    ensures RingLayout(r, f, slots, Append(c, slots))
    ensures Entries(r, f, slots, Append(c, slots)) == Entries(mem, f, slots, c) + [e]
  {
    var n, t := Size(c, slots), c.tail;
    var c' := Append(c, slots);
    RingSlotStep(t, n, slots);
    assert c'.tail == t && Size(c', slots) == n + 1;
    EntriesWithRoom(mem, r, f, slots, c, e);
    StoredExtend(Entries(mem, f, slots, c), e, false);
    ClearedWithRoom(mem, r, f, slots, c);
  }

  lemma EntriesWithRoom(mem: seq<u8>, r: seq<u8>, f: Format, slots: nat, c: Cursors, e: LogEntry)
    requires slots >= 2 && Fits(f, slots, |mem|) && InRange(c, slots) && WellFormed(e)
    requires Size(c, slots) < slots - 1 && |r| == |mem|
    requires SlotBytes(r, f, c.head) == Encode(e) && Decode(Encode(e)) == e
    requires forall j | 0 <= j < slots && j != c.head && j != Next(c.head, slots) :: SlotBytes(r, f, j) == SlotBytes(mem, f, j)
    ensures Entries(r, f, slots, Append(c, slots)) == Entries(mem, f, slots, c) + [e]
  {
    var n, t := Size(c, slots), c.tail;
    var c' := Append(c, slots);
    RingSlotStep(t, n, slots);
    var es, es' := Entries(mem, f, slots, c), Entries(r, f, slots, c');
    forall p | 0 <= p < n + 1 ensures es'[p] == (es + [e])[p] {
      if p < n {
        RingSlotInjective(t, p, n, slots);
        RingSlotInjective(t, p, n + 1, slots);
      }
    }
  }

  lemma ClearedWithRoom(mem: seq<u8>, r: seq<u8>, f: Format, slots: nat, c: Cursors)
    requires slots >= 2 && Fits(f, slots, |mem|) && InRange(c, slots)
    requires Size(c, slots) < slots - 1 && |r| == |mem|
    requires forall p | Size(c, slots) <= p < slots ::
      SlotBytes(mem, f, RingSlot(c.tail, p, slots)) == Zeros(LOG_ENTRY_SIZE)
    requires SlotBytes(r, f, Next(c.head, slots)) == Zeros(LOG_ENTRY_SIZE)
    requires forall j | 0 <= j < slots && j != c.head && j != Next(c.head, slots) :: SlotBytes(r, f, j) == SlotBytes(mem, f, j)
    ensures forall p | Size(c, slots) + 1 <= p < slots ::
      SlotBytes(r, f, RingSlot(c.tail, p, slots)) == Zeros(LOG_ENTRY_SIZE)
  {
    var n, t := Size(c, slots), c.tail;
    RingSlotStep(t, n, slots);
    forall p | n + 1 < p < slots ensures SlotBytes(r, f, RingSlot(t, p, slots)) == Zeros(LOG_ENTRY_SIZE) {
      RingSlotInjective(t, p, n, slots);
      RingSlotInjective(t, p, n + 1, slots);
    }
  }

  lemma AppendWhenFull(mem: seq<u8>, r: seq<u8>, f: Format, slots: nat, c: Cursors, e: LogEntry)
    requires RingLayout(mem, f, slots, c) && WellFormed(e) && e.timestamp != 0
    requires forall k | 0 <= k < Size(c, slots) :: Entries(mem, f, slots, c)[k].timestamp < e.timestamp
    requires Size(c, slots) == slots - 1 && |r| == |mem| && HeaderOk(r, f, slots)
    requires SlotBytes(r, f, c.head) == Encode(e) && Decode(Encode(e)) == e
    requires SlotBytes(r, f, Next(c.head, slots)) == Zeros(LOG_ENTRY_SIZE)
    requires forall j | 0 <= j < slots && j != c.head && j != Next(c.head, slots) :: SlotBytes(r, f, j) == SlotBytes(mem, f, j)
    ensures RingLayout(r, f, slots, Append(c, slots))
    ensures Entries(r, f, slots, Append(c, slots)) == Entries(mem, f, slots, c)[1..] + [e]
  {
    var t := c.tail;
    var c' := Append(c, slots);
    var t' := Next(t, slots);
    assert Next(c.head, slots) == t;
    assert c'.tail == t' && Size(c', slots) == slots - 1;
    EntriesWhenFull(mem, r, f, slots, c, e);
    StoredExtend(Entries(mem, f, slots, c), e, true);
    assert RingSlot(t', slots - 1, slots) == t;
  }

  lemma EntriesWhenFull(mem: seq<u8>, r: seq<u8>, f: Format, slots: nat, c: Cursors, e: LogEntry)
    requires slots >= 2 && Fits(f, slots, |mem|) && InRange(c, slots) && WellFormed(e)
    requires Size(c, slots) == slots - 1 && |r| == |mem|
    requires SlotBytes(r, f, c.head) == Encode(e) && Decode(Encode(e)) == e
    requires forall j | 0 <= j < slots && j != c.head && j != Next(c.head, slots) :: SlotBytes(r, f, j) == SlotBytes(mem, f, j)
    ensures Entries(r, f, slots, Append(c, slots)) == Entries(mem, f, slots, c)[1..] + [e]
  {
    var c' := Append(c, slots);
    assert Size(c', slots) == slots - 1;
    var es, es' := Entries(mem, f, slots, c), Entries(r, f, slots, c');
    forall p | 0 <= p < slots - 1 ensures es'[p] == (es[1..] + [e])[p] {
      FullEntryShifted(mem, r, f, slots, c, e, p);
    }
  }

  /** In a full ring, the entry at position p after the append is the one at p + 1
      before it, and the last is the new entry. */
  lemma FullEntryShifted(mem: seq<u8>, r: seq<u8>, f: Format, slots: nat, c: Cursors, e: LogEntry, p: nat)
    requires slots >= 2 && Fits(f, slots, |mem|) && InRange(c, slots) && WellFormed(e)
    requires Size(c, slots) == slots - 1 && |r| == |mem| && p < slots - 1
    requires SlotBytes(r, f, c.head) == Encode(e) && Decode(Encode(e)) == e
    requires forall j | 0 <= j < slots && j != c.head && j != Next(c.head, slots) :: SlotBytes(r, f, j) == SlotBytes(mem, f, j)
    ensures var c' := Append(c, slots);
      && Size(c', slots) == slots - 1
      && Entries(r, f, slots, c')[p] == if p < slots - 2 then Entries(mem, f, slots, c)[p + 1] else e
  {
    var t := c.tail;
    assert Next(c.head, slots) == t;
    var c' := Append(c, slots);
    assert c'.tail == Next(t, slots);
    RingSlotStep(t, p, slots);
    var i := RingSlot(t, p + 1, slots);
    assert Entries(r, f, slots, c')[p] == Decode(SlotBytes(r, f, i));
    if p < slots - 2 {
      assert i != c.head && i != t by {
        RingSlotInjective(t, p + 1, slots - 1, slots);
        RingSlotInjective(t, p + 1, 0, slots);
      }
      assert SlotBytes(r, f, i) == SlotBytes(mem, f, i);
    }
  }

  // ---------------------------------------------------------------- recovery after a restart

  /** init()'s first loop: the first slot from i on whose timestamp is 0, or `slots`
      when there is none (the out-of-range marker the source asserts against). */
  function FindHead(mem: seq<u8>, f: Format, slots: nat, i: nat): (h: nat)
    requires Fits(f, slots, |mem|) && i <= slots
    ensures i <= h <= slots
    ensures h < slots ==> Stamp(mem, f, h) == 0
    ensures forall j | i <= j < h :: Stamp(mem, f, j) != 0
    decreases slots - i
  {
    if i == slots then slots
    else if Stamp(mem, f, i) == 0 then i
    else FindHead(mem, f, slots, i + 1)
  }

  /** init()'s second loop: the first k from k0 on for which slot `(head + k) % slots`
      holds an entry, or `slots` when there is none. */
  function FindTail(mem: seq<u8>, f: Format, slots: nat, head: nat, k0: nat): (k: nat)
    requires Fits(f, slots, |mem|) && head < slots && k0 <= slots
    ensures k0 <= k <= slots
    ensures k < slots ==> Stamp(mem, f, RingSlot(head, k, slots)) != 0
    decreases slots - k0
  {
    if k0 == slots then slots
    else if Stamp(mem, f, RingSlot(head, k0, slots)) != 0 then k0
    else FindTail(mem, f, slots, head, k0 + 1)
  }

  /** Every slot FindTail passes over is empty. */
  lemma {:induction false} FindTailSkipsEmpty(mem: seq<u8>, f: Format, slots: nat, head: nat, k0: nat)
    requires Fits(f, slots, |mem|) && head < slots && k0 <= slots
    ensures forall j | k0 <= j < FindTail(mem, f, slots, head, k0) :: Stamp(mem, f, RingSlot(head, j, slots)) == 0
    decreases slots - k0
  {
    if k0 < slots && Stamp(mem, f, RingSlot(head, k0, slots)) == 0 {
      FindTailSkipsEmpty(mem, f, slots, head, k0 + 1);
    }
  }

  /** Which of init()'s assertions halts the board. */
  datatype HaltReason = NoEmptySlot | NoTimestamp | NoTail

  /** What init() makes of the stored entries when the header is intact. */
  datatype Recovery = Recovered(cursors: Cursors, timestamp: nat) | Halt(reason: HaltReason)

  /** init() after the header check: head is the first cleared slot, lastNotified the
      slot before it (whose timestamp the clock is adjusted to), and tail the first slot
      holding an entry going round from head. */
  function Recover(mem: seq<u8>, f: Format, slots: nat): (r: Recovery)
    requires slots >= 2 && Fits(f, slots, |mem|)
    ensures r.Recovered? ==> InRange(r.cursors, slots) && r.timestamp != 0
    ensures r.Recovered? ==> r.cursors.lastNotified == Prev(r.cursors.head, slots) && UnnotifiedCount(r.cursors, slots) == 0
  {
    var h := FindHead(mem, f, slots, 0);
    if h == slots then Halt(NoEmptySlot)
    else
      var ts := Stamp(mem, f, Prev(h, slots));
      if ts == 0 then Halt(NoTimestamp)
      else
        var k := FindTail(mem, f, slots, h, 1);
        if k == slots then Halt(NoTail)
        else Recovered(Cursors(h, RingSlot(h, k, slots), Prev(h, slots)), ts)
  }

  /** A restart over a store written by clear() and appends recovers the same head and
      tail, treats every entry as notified, and resumes the clock at the newest entry. */
  lemma RecoverRing(mem: seq<u8>, f: Format, slots: nat, c: Cursors)
    requires RingLayout(mem, f, slots, c) && Size(c, slots) >= 1
    ensures Recover(mem, f, slots)
      == Recovered(Cursors(c.head, c.tail, Prev(c.head, slots)), Entries(mem, f, slots, c)[Size(c, slots) - 1].timestamp)
  {
    RecoverHead(mem, f, slots, c);
    NewestBeforeHead(mem, f, slots, c);
    RecoverTail(mem, f, slots, c);
  }

  /** The slot before head holds the newest entry. */
  lemma NewestBeforeHead(mem: seq<u8>, f: Format, slots: nat, c: Cursors)
    requires Fits(f, slots, |mem|) && InRange(c, slots) && Size(c, slots) >= 1
    ensures Stamp(mem, f, Prev(c.head, slots)) == Entries(mem, f, slots, c)[Size(c, slots) - 1].timestamp
  {
    var n := Size(c, slots);
    RingSlotStep(c.tail, n - 1, slots);
  }

  /** The first cleared slot is head: before it, either the entries from slot 0 (tail
      not yet moved) or, in a full ring, every slot but head. */
  lemma RecoverHead(mem: seq<u8>, f: Format, slots: nat, c: Cursors)
    requires RingLayout(mem, f, slots, c)
    ensures FindHead(mem, f, slots, 0) == c.head
  {
    var n, t, h := Size(c, slots), c.tail, c.head;
    var es := Entries(mem, f, slots, c);
    ClearedSlotIsEmpty(LogEntry(0, 0, [0, 0, 0, 0, 0, 0]));
    assert Stamp(mem, f, h) == 0;
    forall j | 0 <= j < h ensures Stamp(mem, f, j) != 0 {
      var p := Distance(t, j, slots);
      assert p != n;
      assert es[p].timestamp == Stamp(mem, f, j);
    }
  }

  /** Going round from head, the cleared slots come first and tail is the first entry. */
  lemma RecoverTail(mem: seq<u8>, f: Format, slots: nat, c: Cursors)
    requires RingLayout(mem, f, slots, c) && Size(c, slots) >= 1
    ensures FindTail(mem, f, slots, c.head, 1) == slots - Size(c, slots)
    ensures RingSlot(c.head, slots - Size(c, slots), slots) == c.tail
  {
    var n, t, h := Size(c, slots), c.tail, c.head;
    FindTailSkipsEmpty(mem, f, slots, h, 1);
    ClearedSlotIsEmpty(LogEntry(0, 0, [0, 0, 0, 0, 0, 0]));
    forall k | 1 <= k < slots - n ensures Stamp(mem, f, RingSlot(h, k, slots)) == 0 {
      RingSlotCompose(t, n, k, slots);
    }
    RingSlotCompose(t, n, slots - n, slots);
    assert Stamp(mem, f, RingSlot(h, slots - n, slots)) == Entries(mem, f, slots, c)[0].timestamp;
  }
}
