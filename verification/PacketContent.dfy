/** Where samples land in the packet, and what a packet holds when it is sent. */
module PacketContent {
  import opened Types
  import opened Summary
  import opened Engine
  import opened Signatures
  import opened Schedule
  import opened ClosedForm
  import opened Liveness

  // ----- alignment

  /** The write offset is the sum of the lengths of the entries already collected. */
  predicate Aligned(s: Setup, c: Cursor)
    requires c.currentEntry <= |s.entry|
  {
    c.pktOffset == LengthSum(s.entry, c.currentEntry)
  }

  /** Inside a packet the offset error stays what it is; the packet boundary clears it. */
  lemma PassKeepsError(s: Setup, c: Cursor, mem: Memory, now: nat, r: Cursor)
    requires SetupOk(s) && Inside(s, c)
    requires r == Pass(s, c, mem, now).cursor
    ensures if c.currentEntry == s.addrCount - 1 then Aligned(s, r)
            else r.pktOffset - LengthSum(s.entry, r.currentEntry) == c.pktOffset - LengthSum(s.entry, c.currentEntry)
  {
  }

  lemma {:induction false} CollectedAlignment(s: Setup, c: Cursor, mem: Memory, from: nat, i: nat, r: Cursor)
    requires SetupOk(s) && Inside(s, c)
    requires r == Collected(s, c, mem, from, i).cursor
    ensures if i + c.currentEntry < s.addrCount then
              && r.currentEntry == c.currentEntry + i
              && r.pktOffset - LengthSum(s.entry, r.currentEntry) == c.pktOffset - LengthSum(s.entry, c.currentEntry)
            else Aligned(s, r)
  {
    if i > 0 {
      hide Pass;
      var r0 := Collected(s, c, mem, from, i - 1).cursor;
      CollectedAlignment(s, c, mem, from, i - 1, r0);
      PassKeepsError(s, r0, mem, TimeAt(s, c, from, i - 1), r);
    }
  }

  /** Self-stabilisation, exactly: a misaligned table is aligned again from its next packet
      boundary on and not one wakeup earlier; an aligned one stays aligned. */
  lemma AlignedIffBoundaryPassed(s: Setup, c: Cursor, mem: Memory, from: nat, w: nat)
    requires Runnable(s) && CursorOk(|s.entry|, c)
    ensures Aligned(s, Run(s, c, mem, from, w).cursor) <==> Aligned(s, c) || w >= NextPacket(s, c)
  {
    hide Drain, Pass, Wakeup;
    if c.currentEntry < s.addrCount {
      InsideAligned(s, c, mem, from, w, Run(s, c, mem, from, w));
    } else if w > 0 {
      var c1 := AfterOverrun(s, c);
      var tail := Run(s, c1, mem, from + 1, w - 1);
      RunFromOverrun(s, c, mem, from, w - 1, Run(s, c, mem, from, w), tail);
      assert Aligned(s, c1);
      InsideAligned(s, c1, mem, from + 1, w - 1, tail);
    }
  }

  lemma InsideAligned(s: Setup, c: Cursor, mem: Memory, from: nat, w: nat, end: Step)
    requires Runnable(s) && Inside(s, c)
    requires end == Run(s, c, mem, from, w)
    ensures Aligned(s, end.cursor) <==> Aligned(s, c) || w >= NextPacket(s, c)
  {
    var m := RunFollowsSchedule(s, c, mem, from, w, end);
    var r := Collected(s, c, mem, from, m).cursor;
    CollectedAlignment(s, c, mem, from, m, r);
    var i := s.addrCount - 1 - c.currentEntry;
    LastSampleOfPacket(s, c, from, 0, i);
    DueByIs(s, c, from, m, from + w, i);
  }

  /** What breaks alignment: exactly a changed length among the entries already collected. */
  lemma JamKeepsAlignmentIff(s: Setup, c: Cursor, slot: nat, e: ControlEntry)
    requires c.currentEntry <= |s.entry| && slot < |s.entry|
    requires Aligned(s, c)
    ensures Aligned(s.(entry := s.entry[slot := e]), c) <==>
            slot >= c.currentEntry || e.length == s.entry[slot].length
  {
    SumsAfterUpdate(s.entry, slot, e, c.currentEntry);
  }

  // ----- content

  /** Wakeup at which entry k is sampled if entry j of the same cycle is sampled at wakeup first. */
  function SlotTime(s: Setup, j: nat, first: nat, k: nat): nat
    requires j <= k <= |s.entry|
  {
    DelaySumMonotone(s.entry, j, k);
    first + (DelaySum(s.entry, k) - DelaySum(s.entry, j))
  }

  /** What a slot of the packet holds after its sample: the bytes read, or what was there. */
  function SlotBytes(s: Setup, mem: Memory, data: seq<u8>, k: nat, at: nat): (r: seq<u8>)
    requires k < |s.entry| && LengthSum(s.entry, k + 1) <= |data|
    requires FieldLengths(s.entry)
    ensures |r| == s.entry[k].length
  {
    assert FieldLength(s.entry[k].length);
    if CodeFor(s, mem, k, at) == SUCCESS then mem(RequestFor(s, k, at)).value[..s.entry[k].length]
    else data[LengthSum(s.entry, k)..LengthSum(s.entry, k + 1)]
  }

  /** The slots from j up to k one after the other, each sampled at its own wakeup of the cycle,
      entry j's being first. */
  function Slots(s: Setup, mem: Memory, data: seq<u8>, j: nat, first: nat, k: nat): (r: seq<u8>)
    requires j <= k <= |s.entry| && LengthSum(s.entry, k) <= |data|
    requires FieldLengths(s.entry)
    ensures |r| == LengthSum(s.entry, k) - LengthSum(s.entry, j)
  {
    if k == j then []
    else Slots(s, mem, data, j, first, k - 1) + SlotBytes(s, mem, data, k - 1, SlotTime(s, j, first, k - 1))
  }

  lemma PassWrites(s: Setup, c: Cursor, mem: Memory, now: nat, r: Cursor)
    requires SetupOk(s) && Inside(s, c)
    requires r == Pass(s, c, mem, now).cursor
    ensures FieldLength(s.entry[c.currentEntry].length)
    ensures r.data == Store(s, mem, c.data, c.pktOffset, c.currentEntry, now)
  {
    assert FieldLength(s.entry[c.currentEntry].length);
  }

  lemma OverwriteSlices(before: seq<u8>, a: nat, bytes: seq<u8>)
    requires a + |bytes| <= |before|
    ensures Overwrite(before, a, bytes)[..a + |bytes|] == before[..a] + bytes
    ensures Overwrite(before, a, bytes)[a + |bytes|..] == before[a + |bytes|..]
  {
  }

  lemma KeepSlices(before: seq<u8>, data: seq<u8>, a: nat, b: nat)
    requires a <= b <= |data| == |before|
    requires before[a..] == data[a..]
    ensures before[..b] == before[..a] + data[a..b]
    ensures before[b..] == data[b..]
  {
    assert forall i :: a <= i < |data| ==> before[i] == before[a..][i - a] == data[a..][i - a];
  }

  /** Slot a..b written over, or left as the data was. */
  lemma SlotLaidOut(before: seq<u8>, after: seq<u8>, data: seq<u8>, done: seq<u8>, slot: seq<u8>, a: nat, b: nat)
    requires a <= b <= |data| == |before| && |slot| == b - a
    requires before[..a] == done && before[a..] == data[a..]
    requires after == Overwrite(before, a, slot) || (after == before && slot == data[a..b])
    ensures |after| == |data| && after[..b] == done + slot && after[b..] == data[b..]
  {
    KeepSlices(before, data, a, b);
    if after == Overwrite(before, a, slot) {
      OverwriteSlices(before, a, slot);
    }
  }

  /** The data area when the samples from entry j up to k of a cycle are taken, as the engine stores them. */
  function StoredData(s: Setup, mem: Memory, data: seq<u8>, j: nat, first: nat, k: nat): (r: seq<u8>)
    requires j <= k <= |s.entry| && FieldLengths(s.entry)
    requires LengthSum(s.entry, k) <= |data|
    ensures |r| == |data|
  {
    if k == j then data
    else
      assert FieldLength(s.entry[k - 1].length);
      Store(s, mem, StoredData(s, mem, data, j, first, k - 1), LengthSum(s.entry, k - 1), k - 1,
            SlotTime(s, j, first, k - 1))
  }

  lemma StoredNext(s: Setup, mem: Memory, data: seq<u8>, j: nat, first: nat, k: nat)
    requires j <= k < |s.entry| && FieldLengths(s.entry)
    requires LengthSum(s.entry, k + 1) <= |data|
    ensures FieldLength(s.entry[k].length)
    ensures StoredData(s, mem, data, j, first, k + 1) ==
            Store(s, mem, StoredData(s, mem, data, j, first, k), LengthSum(s.entry, k), k, SlotTime(s, j, first, k))
  {
    hide Store, SlotTime;
    assert FieldLength(s.entry[k].length);
  }

  /** The slots from j up to k are laid out one after the other and the rest is as it was. */
  ghost predicate Filled(s: Setup, mem: Memory, data: seq<u8>, j: nat, first: nat, k: nat, after: seq<u8>)
    requires j <= k <= |s.entry| && FieldLengths(s.entry)
    requires LengthSum(s.entry, k) <= |data| == |after|
  {
    LengthSumMonotone(s.entry, j, k);
    && after[..LengthSum(s.entry, k)] == data[..LengthSum(s.entry, j)] + Slots(s, mem, data, j, first, k)
    && after[LengthSum(s.entry, k)..] == data[LengthSum(s.entry, k)..]
  }

  /** A sample writes its slot's bytes, or keeps what was there. */
  lemma StoreIsSlot(s: Setup, mem: Memory, data: seq<u8>, k: nat, now: nat,
                    before: seq<u8>, slot: seq<u8>, after: seq<u8>)
    requires k < |s.entry| && FieldLengths(s.entry) && FieldLength(s.entry[k].length)
    requires LengthSum(s.entry, k + 1) <= |data| == |before|
    requires slot == SlotBytes(s, mem, data, k, now)
    requires after == Store(s, mem, before, LengthSum(s.entry, k), k, now)
    ensures after == Overwrite(before, LengthSum(s.entry, k), slot)
            || (after == before && slot == data[LengthSum(s.entry, k)..LengthSum(s.entry, k + 1)])
  {
    hide Overwrite;
    assert s.entry[k].length % 0x100 == s.entry[k].length;
  }

  /** One sample writes its slot and shifts no other. */
  lemma SlotWritten(s: Setup, mem: Memory, data: seq<u8>, j: nat, first: nat, k: nat, before: seq<u8>, after: seq<u8>)
    requires j <= k < |s.entry| && FieldLengths(s.entry) && FieldLength(s.entry[k].length)
    requires LengthSum(s.entry, k + 1) <= |data| == |before|
    requires Filled(s, mem, data, j, first, k, before)
    requires after == Store(s, mem, before, LengthSum(s.entry, k), k, SlotTime(s, j, first, k))
    ensures Filled(s, mem, data, j, first, k + 1, after)
  {
    hide Store, Overwrite, SlotBytes, SlotTime;
    var a, b, now := LengthSum(s.entry, k), LengthSum(s.entry, k + 1), SlotTime(s, j, first, k);
    var slot := SlotBytes(s, mem, data, k, now);
    StoreIsSlot(s, mem, data, k, now, before, slot, after);
    var head, slots := data[..LengthSum(s.entry, j)], Slots(s, mem, data, j, first, k);
    SlotLaidOut(before, after, data, head + slots, slot, a, b);
    Associate(head, slots, slot);
  }

  /** Storing sample by sample at the running offset fills slot after slot. */
  lemma {:induction false} StoredIsFilled(s: Setup, mem: Memory, data: seq<u8>, j: nat, first: nat, k: nat, r: seq<u8>)
    requires j <= k <= |s.entry| && FieldLengths(s.entry)
    requires LengthSum(s.entry, k) <= |data|
    requires r == StoredData(s, mem, data, j, first, k)
    ensures Filled(s, mem, data, j, first, k, r)
    decreases k
  {
    hide Store;
    if k > j {
      var r0 := StoredData(s, mem, data, j, first, k - 1);
      StoredIsFilled(s, mem, data, j, first, k - 1, r0);
      StoredFilledOn(s, mem, data, j, first, k - 1, r0, r);
    }
  }

  lemma StoredFilledOn(s: Setup, mem: Memory, data: seq<u8>, j: nat, first: nat, k: nat,
                       before: seq<u8>, after: seq<u8>)
    requires j <= k < |s.entry| && FieldLengths(s.entry)
    requires LengthSum(s.entry, k + 1) <= |data|
    requires before == StoredData(s, mem, data, j, first, k) && Filled(s, mem, data, j, first, k, before)
    requires after == StoredData(s, mem, data, j, first, k + 1)
    ensures Filled(s, mem, data, j, first, k + 1, after)
  {
    hide Store, Slots, Filled, Overwrite, StoredData, SlotTime;
    StoredNext(s, mem, data, j, first, k);
    SlotWritten(s, mem, data, j, first, k, before, after);
  }

  /** k samples into a cycle whose stored data is `stored`. */
  ghost predicate InCycle(s: Setup, stored: seq<u8>, k: nat, r: Cursor)
    requires k <= s.addrCount <= |s.entry|
  {
    && CursorOk(|s.entry|, r)
    && r.data == stored
    && r.currentEntry == (if k == s.addrCount then 0 else k)
    && Aligned(s, r)
  }

  lemma NextInCycle(s: Setup, mem: Memory, stored: seq<u8>, k: nat, before: Cursor, r: Cursor, now: nat)
    requires SetupOk(s) && k < s.addrCount
    requires InCycle(s, stored, k, before)
    requires r == Pass(s, before, mem, now).cursor
    ensures FieldLength(s.entry[k].length) && LengthSum(s.entry, k + 1) <= |stored|
    ensures InCycle(s, Store(s, mem, stored, LengthSum(s.entry, k), k, now), k + 1, r)
  {
    hide Pass, Fetch, Store;
    assert FieldLength(s.entry[k].length);
    LengthSumBound(s.entry, k + 1);
    PassWrites(s, before, mem, now, r);
    PassKeepsError(s, before, mem, now, r);
  }

  /** The samples of a cycle, from sample i0 of entry j on, come after the delays between them. */
  lemma {:induction false} CycleTimes(s: Setup, c: Cursor, from: nat, i0: nat, j: nat, k: nat, i: nat)
    requires c.currentEntry < s.addrCount <= |s.entry|
    requires SlotAt(s, c.currentEntry, i0) == j
    requires j <= k <= s.addrCount && i == i0 + (k - j)
    ensures SlotAt(s, c.currentEntry, i) == if k == s.addrCount then 0 else k
    ensures TimeAt(s, c, from, i) == SlotTime(s, j, TimeAt(s, c, from, i0), k)
    decreases k
  {
    if k > j {
      CycleTimes(s, c, from, i0, j, k - 1, i - 1);
    }
  }

  /** The cycle that takes sample i0 of entry j at an aligned offset, when it has come to entry k. */
  lemma {:induction false} CycleFills(s: Setup, c: Cursor, mem: Memory, from: nat, i0: nat, j: nat, k: nat, i: nat,
                                      start: Cursor, r: Cursor, first: nat)
    requires SetupOk(s) && Inside(s, c)
    requires start == Collected(s, c, mem, from, i0).cursor
    requires start.currentEntry == j && Aligned(s, start)
    requires j <= k <= s.addrCount && i == i0 + (k - j)
    requires r == Collected(s, c, mem, from, i).cursor
    requires first == TimeAt(s, c, from, i0)
    ensures LengthSum(s.entry, k) <= |start.data|
    ensures InCycle(s, StoredData(s, mem, start.data, j, first, k), k, r)
    decreases k
  {
    hide Pass, Store;
    LengthSumBound(s.entry, k);
    if k > j {
      var before := Collected(s, c, mem, from, i - 1).cursor;
      CycleFills(s, c, mem, from, i0, j, k - 1, i - 1, start, before, first);
      CycleFillsOn(s, c, mem, from, i0, j, k, i, start.data, before, r, first);
    }
  }

  lemma CycleFillsOn(s: Setup, c: Cursor, mem: Memory, from: nat, i0: nat, j: nat, k: nat, i: nat,
                     data: seq<u8>, before: Cursor, r: Cursor, first: nat)
    requires SetupOk(s) && Inside(s, c) && SlotAt(s, c.currentEntry, i0) == j
    requires j < k <= s.addrCount && i == i0 + (k - j)
    requires before == Collected(s, c, mem, from, i - 1).cursor
    requires r == Collected(s, c, mem, from, i).cursor
    requires first == TimeAt(s, c, from, i0)
    requires LengthSum(s.entry, k) <= |data| && LengthSum(s.entry, k - 1) <= |data|
    requires InCycle(s, StoredData(s, mem, data, j, first, k - 1), k - 1, before)
    ensures InCycle(s, StoredData(s, mem, data, j, first, k), k, r)
  {
    hide Pass, Store, StoredData, InCycle, Collected, TimeAt, SlotAt, SlotTime;
    CollectedStep(s, c, mem, from, i, before, r);
    CycleTimes(s, c, from, i0, j, k - 1, i - 1);
    CycleStep(s, mem, data, j, first, k, before, r, TimeAt(s, c, from, i - 1));
  }

  lemma CycleStep(s: Setup, mem: Memory, data: seq<u8>, j: nat, first: nat, k: nat, before: Cursor, r: Cursor, now: nat)
    requires SetupOk(s) && j < k <= s.addrCount && LengthSum(s.entry, k) <= |data|
    requires LengthSum(s.entry, k - 1) <= |data|
    requires InCycle(s, StoredData(s, mem, data, j, first, k - 1), k - 1, before)
    requires now == SlotTime(s, j, first, k - 1)
    requires r == Pass(s, before, mem, now).cursor
    ensures before.currentEntry == k - 1
    ensures InCycle(s, StoredData(s, mem, data, j, first, k), k, r)
  {
    hide Pass, Store, StoredData, SlotTime;
    NextInCycle(s, mem, StoredData(s, mem, data, j, first, k - 1), k - 1, before, r, now);
    StoredNext(s, mem, data, j, first, k - 1);
  }

  /** A sent packet is the data area right after some sample of the last active entry. */
  lemma {:induction false} SendIsPacket(s: Setup, c: Cursor, mem: Memory, from: nat, i: nat,
                                        events: seq<Event>, e: Event)
    returns (j: nat)
    requires SetupOk(s) && Inside(s, c)
    requires events == Collected(s, c, mem, from, i).events
    requires e in events && e.Send?
    ensures j < i && SlotAt(s, c.currentEntry, j) == s.addrCount - 1
    ensures e == Send(TimeAt(s, c, from, j), PacketOf(s, Collected(s, c, mem, from, j + 1).cursor.data))
    decreases i
  {
    hide Pass, PacketOf;
    var p := Collected(s, c, mem, from, i - 1);
    var r := Pass(s, p.cursor, mem, TimeAt(s, c, from, i - 1));
    assert events == p.events + r.events;
    if e in p.events {
      j := SendIsPacket(s, c, mem, from, i - 1, p.events, e);
    } else {
      j := i - 1;
      PassSends(s, p.cursor, mem, TimeAt(s, c, from, j), r, e);
    }
  }

  lemma PassSends(s: Setup, c: Cursor, mem: Memory, now: nat, r: Step, e: Event)
    requires SetupOk(s) && Inside(s, c)
    requires r == Pass(s, c, mem, now)
    requires e in r.events && e.Send?
    ensures c.currentEntry == s.addrCount - 1
    ensures e == Send(now, PacketOf(s, r.cursor.data))
  {
  }

  // ----- the packets of any undisturbed run

  /** Number of samples taken when cycle q begins, counting the cycle under way as cycle 0. */
  function Boundary(s: Setup, c: Cursor, q: nat): nat
    requires c.currentEntry < s.addrCount
    requires q > 0 || c.currentEntry == 0
  {
    if q > 0 then TimesAtLeast(q, s.addrCount); q * s.addrCount - c.currentEntry else 0
  }

  /** Wakeup at which cycle q begins. */
  function CycleStart(s: Setup, c: Cursor, from: nat, q: nat): nat
    requires c.currentEntry < s.addrCount <= |s.entry|
    requires q > 0 || c.currentEntry == 0
  {
    DelaySumMonotone(s.entry, c.currentEntry, s.addrCount);
    if q > 0 then
      TimesAtLeast(q, DelaySum(s.entry, s.addrCount));
      from + Waits(c.countdown) + (q * DelaySum(s.entry, s.addrCount) - DelaySum(s.entry, c.currentEntry))
    else from + Waits(c.countdown)
  }

  /** The data area when cycle q begins: what packet q - 1 carried, or at first what the table had. */
  ghost function DataAt(s: Setup, c: Cursor, mem: Memory, from: nat, q: nat): (r: seq<u8>)
    requires SetupOk(s) && Inside(s, c)
    requires q > 0 || c.currentEntry == 0
    ensures |r| == |c.data|
  {
    Collected(s, c, mem, from, Boundary(s, c, q)).cursor.data
  }

  /** Cycle q begins at entry 0 with an aligned offset, unless it is the one the run starts in. */
  lemma BoundaryIs(s: Setup, c: Cursor, mem: Memory, from: nat, q: nat, r: Cursor)
    requires SetupOk(s) && Inside(s, c) && q > 0
    requires r == Collected(s, c, mem, from, Boundary(s, c, q)).cursor
    ensures r.currentEntry == 0 && r.pktOffset == 0
    ensures TimeAt(s, c, from, Boundary(s, c, q)) == CycleStart(s, c, from, q)
  {
    TimesAtLeast(q, s.addrCount);
    PositionOf(s, c, from, Boundary(s, c, q), q, 0);
    CollectedAlignment(s, c, mem, from, Boundary(s, c, q), r);
  }

  lemma NextBoundary(s: Setup, c: Cursor, q: nat)
    requires c.currentEntry < s.addrCount
    ensures Boundary(s, c, q + 1) == if q > 0 then Boundary(s, c, q) + s.addrCount else s.addrCount - c.currentEntry
  {
    TimesSucc(q, s.addrCount);
  }

  /** A cycle that begins inside the run is filled slot by slot. */
  lemma WholeCycleFilled(s: Setup, c: Cursor, mem: Memory, from: nat, q: nat)
    requires SetupOk(s) && Inside(s, c) && q > 0
    ensures LengthSum(s.entry, s.addrCount) <= |c.data|
    ensures Filled(s, mem, DataAt(s, c, mem, from, q), 0, CycleStart(s, c, from, q), s.addrCount,
                   DataAt(s, c, mem, from, q + 1))
  {
    hide Collected, TimeAt, Pass, StoredData, Filled, Boundary, CycleStart;
    var n, i0, i := s.addrCount, Boundary(s, c, q), Boundary(s, c, q + 1);
    var start, r := Collected(s, c, mem, from, i0).cursor, Collected(s, c, mem, from, i).cursor;
    BoundaryIs(s, c, mem, from, q, start);
    NextBoundary(s, c, q);
    CycleFills(s, c, mem, from, i0, 0, n, i, start, r, CycleStart(s, c, from, q));
    StoredIsFilled(s, mem, start.data, 0, CycleStart(s, c, from, q), n, r.data);
  }

  /** The cycle the run starts in is filled from its next entry on, if the offset is aligned. */
  lemma FirstCycleFilled(s: Setup, c: Cursor, mem: Memory, from: nat)
    requires SetupOk(s) && Inside(s, c) && Aligned(s, c)
    ensures LengthSum(s.entry, s.addrCount) <= |c.data|
    ensures Filled(s, mem, c.data, c.currentEntry, from + Waits(c.countdown), s.addrCount, DataAt(s, c, mem, from, 1))
  {
    hide Pass, StoredData, Filled;
    var n, first := s.addrCount, from + Waits(c.countdown);
    var r := Collected(s, c, mem, from, n - c.currentEntry).cursor;
    CycleFills(s, c, mem, from, 0, c.currentEntry, n, n - c.currentEntry, c, r, first);
    StoredIsFilled(s, mem, c.data, c.currentEntry, first, n, r.data);
  }

  /** Packet content of every undisturbed run, wherever in a packet it starts and however misaligned.
      Each packet is some cycle's and is sent at that cycle's time. In every packet but the first each
      slot holds the bytes read at its own sampling wakeup of the cycle - or, where that read failed,
      what the packet before held there - and every other byte is unchanged. If the run starts
      aligned this holds of the rest of the first packet too. */
  lemma PacketsHoldTheirSamples(s: Setup, c: Cursor, mem: Memory, from: nat, w: nat, events: seq<Event>, e: Event)
    returns (q: nat)
    requires Runnable(s) && Inside(s, c)
    requires events == Run(s, c, mem, from, w).events
    requires e in events && e.Send?
    ensures e.at == PacketTime(s, c, from, q)
    ensures e.packet == PacketOf(s, DataAt(s, c, mem, from, q + 1))
    ensures LengthSum(s.entry, s.addrCount) <= |c.data|
    ensures q > 0 ==>
              Filled(s, mem, DataAt(s, c, mem, from, q), 0, CycleStart(s, c, from, q), s.addrCount, e.packet.data)
    ensures q == 0 && Aligned(s, c) ==>
              Filled(s, mem, c.data, c.currentEntry, from + Waits(c.countdown), s.addrCount, e.packet.data)
  {
    hide Run, Pass, Filled, PacketTime, CycleStart;
    LengthSumBound(s.entry, s.addrCount);
    q := PacketIsData(s, c, mem, from, w, events, e);
    if q > 0 {
      WholeCycleFilled(s, c, mem, from, q);
    } else if Aligned(s, c) {
      FirstCycleFilled(s, c, mem, from);
    }
  }

  lemma PacketIsData(s: Setup, c: Cursor, mem: Memory, from: nat, w: nat, events: seq<Event>, e: Event)
    returns (q: nat)
    requires Runnable(s) && Inside(s, c)
    requires events == Run(s, c, mem, from, w).events
    requires e in events && e.Send?
    ensures e.at == PacketTime(s, c, from, q)
    ensures e.packet == PacketOf(s, DataAt(s, c, mem, from, q + 1))
  {
    hide Run, Pass, Collected, PacketOf;
    var n := s.addrCount;
    var m := RunFollowsSchedule(s, c, mem, from, w, Run(s, c, mem, from, w));
    var j := SendIsPacket(s, c, mem, from, m, events, e);
    var k;
    q, k := Split(c.currentEntry + j, n);
    PositionOf(s, c, from, j, q, k);
    LastSampleOfPacket(s, c, from, q, j);
    TimesSucc(q, n);
    assert Boundary(s, c, q + 1) == j + 1;
  }

  // ----- slot by slot, in terms of memory's answers

  lemma {:induction false} SlotsAt(s: Setup, mem: Memory, data: seq<u8>, j: nat, first: nat, k: nat, i: nat)
    requires j <= i < k <= |s.entry| && LengthSum(s.entry, k) <= |data| && FieldLengths(s.entry)
    ensures LengthSum(s.entry, j) <= LengthSum(s.entry, i) <= LengthSum(s.entry, i + 1) <= LengthSum(s.entry, k)
    ensures
      var a := LengthSum(s.entry, j);
      Slots(s, mem, data, j, first, k)[LengthSum(s.entry, i) - a..LengthSum(s.entry, i + 1) - a] ==
      SlotBytes(s, mem, data, i, SlotTime(s, j, first, i))
    decreases k
  {
    hide SlotBytes, SlotTime;
    LengthSumMonotone(s.entry, j, i);
    LengthSumMonotone(s.entry, i + 1, k);
    if i < k - 1 {
      LengthSumMonotone(s.entry, i + 1, k - 1);
      SlotsAt(s, mem, data, j, first, k - 1, i);
    }
  }

  /** The bytes of entry k's slot are what memory answered to the read of its own address at this
      wakeup, or, if that read failed, what the data area held there before. */
  ghost predicate SlotHolds(s: Setup, mem: Memory, before: seq<u8>, k: nat, now: nat, bytes: seq<u8>)
    requires k < |s.entry| && LengthSum(s.entry, k) + s.entry[k].length <= |before|
  {
    var e, offset := s.entry[k], LengthSum(s.entry, k);
    var got := mem(ReadRequest(now, k, e.address, e.length));
    if got.Some? && e.length != 0 then e.length <= 4 && bytes == got.value[..e.length]
    else bytes == before[offset..offset + e.length]
  }

  /** What one slot of a packet holds: the bytes memory answered to the read of that entry's address at
      that entry's wakeup of the cycle, or what was there if that read failed. */
  lemma FilledSlot(s: Setup, mem: Memory, data: seq<u8>, j: nat, first: nat, k: nat, after: seq<u8>, i: nat)
    requires j <= i < k <= |s.entry| && FieldLengths(s.entry)
    requires LengthSum(s.entry, k) <= |data| == |after| && Filled(s, mem, data, j, first, k, after)
    ensures DelaySum(s.entry, j) <= DelaySum(s.entry, i)
    ensures LengthSum(s.entry, i) + s.entry[i].length <= LengthSum(s.entry, k)
    ensures SlotHolds(s, mem, data, i, first + (DelaySum(s.entry, i) - DelaySum(s.entry, j)),
                      after[LengthSum(s.entry, i)..LengthSum(s.entry, i) + s.entry[i].length])
  {
    hide Filled, Slots, SlotBytes, SlotHolds, FieldLengths, LengthSum, DelaySum;
    LengthSumNext(s.entry, i);
    DelaySumMonotone(s.entry, j, i);
    LengthSumMonotone(s.entry, i + 1, k);
    var now := SlotTime(s, j, first, i);
    var bytes := SlotBytes(s, mem, data, i, now);
    SlotIsAnswer(s, mem, data, i, now, bytes);
    SlotOfFilled(s, mem, data, j, first, k, after, i, bytes);
  }

  lemma LengthSumNext(entry: seq<ControlEntry>, i: nat)
    requires i < |entry|
    ensures LengthSum(entry, i + 1) == LengthSum(entry, i) + entry[i].length
  {
  }

  lemma SlotIsAnswer(s: Setup, mem: Memory, data: seq<u8>, i: nat, now: nat, bytes: seq<u8>)
    requires i < |s.entry| && FieldLengths(s.entry) && LengthSum(s.entry, i + 1) <= |data|
    requires bytes == SlotBytes(s, mem, data, i, now)
    ensures SlotHolds(s, mem, data, i, now, bytes)
  {
    assert FieldLength(s.entry[i].length);
  }

  lemma SlotOfFilled(s: Setup, mem: Memory, data: seq<u8>, j: nat, first: nat, k: nat, after: seq<u8>, i: nat,
                     bytes: seq<u8>)
    requires j <= i < k <= |s.entry| && FieldLengths(s.entry)
    requires LengthSum(s.entry, k) <= |data| == |after| && Filled(s, mem, data, j, first, k, after)
    requires LengthSum(s.entry, i + 1) <= LengthSum(s.entry, k)
    requires bytes == SlotBytes(s, mem, data, i, SlotTime(s, j, first, i))
    ensures LengthSum(s.entry, i) + s.entry[i].length <= |after|
    ensures after[LengthSum(s.entry, i)..LengthSum(s.entry, i) + s.entry[i].length] == bytes
  {
    hide SlotBytes, Slots, SlotTime;
    SlotsAt(s, mem, data, j, first, k, i);
    var a, b, c := LengthSum(s.entry, j), LengthSum(s.entry, i), LengthSum(s.entry, i + 1);
    var head, slots := data[..a], Slots(s, mem, data, j, first, k);
    assert after[..LengthSum(s.entry, k)][b..c] == after[b..c];
    assert (head + slots)[b..c] == slots[b - a..c - a];
  }

  /** Packet content, slot by slot: in every undisturbed run, each slot of each packet but the first
      holds what memory answered at that slot's own wakeup of the cycle, or what the packet before held;
      in the first one this holds from the next entry on, if the table was aligned. */
  lemma PacketSlotsAreAnswers(s: Setup, c: Cursor, mem: Memory, from: nat, w: nat, events: seq<Event>, e: Event, k: nat)
    returns (q: nat, before: seq<u8>, now: nat)
    requires Runnable(s) && Inside(s, c) && k < s.addrCount
    requires events == Run(s, c, mem, from, w).events
    requires e in events && e.Send?
    ensures e.at == PacketTime(s, c, from, q)
    ensures LengthSum(s.entry, k) + s.entry[k].length <= |e.packet.data| == |before|
    ensures before == if q > 0 then DataAt(s, c, mem, from, q) else c.data
    ensures now + DelaySum(s.entry, c.currentEntry) ==
            from + Waits(c.countdown) + q * DelaySum(s.entry, s.addrCount) + DelaySum(s.entry, k)
            || (q == 0 && k < c.currentEntry)
    ensures q > 0 || (Aligned(s, c) && c.currentEntry <= k) ==>
              SlotHolds(s, mem, before, k, now,
                        e.packet.data[LengthSum(s.entry, k)..LengthSum(s.entry, k) + s.entry[k].length])
  {
    hide Run, Pass, Filled, PacketTime, Collected, PacketOf, HasDelay, SlotHolds;
    q := PacketsHoldTheirSamples(s, c, mem, from, w, events, e);
    LengthSumMonotone(s.entry, k + 1, s.addrCount);
    DataOfPacket(s, DataAt(s, c, mem, from, q + 1));
    before := if q > 0 then DataAt(s, c, mem, from, q) else c.data;
    if q > 0 {
      now := CycleStart(s, c, from, q) + DelaySum(s.entry, k);
      FilledSlot(s, mem, before, 0, CycleStart(s, c, from, q), s.addrCount, e.packet.data, k);
    } else if c.currentEntry <= k {
      DelaySumMonotone(s.entry, c.currentEntry, k);
      now := from + Waits(c.countdown) + (DelaySum(s.entry, k) - DelaySum(s.entry, c.currentEntry));
      if Aligned(s, c) {
        FilledSlot(s, mem, before, c.currentEntry, from + Waits(c.countdown), s.addrCount, e.packet.data, k);
      }
    } else {
      now := 0;
    }
  }

  lemma DataOfPacket(s: Setup, data: seq<u8>)
    ensures PacketOf(s, data).data == data
  {
  }

  /** A packet that goes out at its cycle's time with every slot holding that cycle's sample. */
  ghost predicate HoldsCycle(s: Setup, c: Cursor, mem: Memory, from: nat, q: nat, e: Event)
    requires SetupOk(s) && Inside(s, c) && c.currentEntry == 0
    requires e.Send?
  {
    && e.at == PacketTime(s, c, from, q)
    && e.packet == PacketOf(s, DataAt(s, c, mem, from, q + 1))
    && LengthSum(s.entry, s.addrCount) <= |c.data|
    && Filled(s, mem, DataAt(s, c, mem, from, q), 0, CycleStart(s, c, from, q), s.addrCount, e.packet.data)
  }

  lemma FirstStart(s: Setup, c: Cursor, mem: Memory, from: nat)
    requires SetupOk(s) && Inside(s, c) && c.currentEntry == 0
    ensures CycleStart(s, c, from, 0) == from + Waits(c.countdown)
    ensures DataAt(s, c, mem, from, 0) == c.data
  {
  }

  /** A run that starts at a packet boundary: every packet holds its samples. */
  lemma PacketHoldsItsSamples(s: Setup, c: Cursor, mem: Memory, from: nat, w: nat, events: seq<Event>, e: Event)
    returns (q: nat)
    requires Runnable(s)
    requires CursorOk(|s.entry|, c) && c.currentEntry == 0 && c.pktOffset == 0
    requires events == Run(s, c, mem, from, w).events
    requires e in events && e.Send?
    ensures HoldsCycle(s, c, mem, from, q, e)
    ensures Coherent(s) ==> e.packet.byteCount == LengthSum(s.entry, s.addrCount)
  {
    hide Filled, PacketTime, CycleStart, Pass, Drain, Run, DataAt;
    q := PacketsHoldTheirSamples(s, c, mem, from, w, events, e);
    FirstStart(s, c, mem, from);
  }

  /** A shortened table sends the data area as it is; all its later packets hold their samples. */
  lemma PacketsOfShortenedTable(s: Setup, c: Cursor, mem: Memory, from: nat, w: nat, events: seq<Event>, e: Event)
    returns (q: nat)
    requires Runnable(s) && CursorOk(|s.entry|, c) && c.currentEntry >= s.addrCount
    requires events == Run(s, c, mem, from, w).events
    requires e in events && e.Send?
    ensures e == Send(from + 1, PacketOf(s, c.data)) || HoldsCycle(s, AfterOverrun(s, c), mem, from + 1, q, e)
  {
    hide Filled, PacketTime, CycleStart, Pass, Drain, Wakeup, HoldsCycle, DataAt;
    q := 0;
    var c1 := AfterOverrun(s, c);
    assert w > 0;
    var tail := Run(s, c1, mem, from + 1, w - 1);
    RunFromOverrun(s, c, mem, from, w - 1, Run(s, c, mem, from, w), tail);
    if e in tail.events {
      q := PacketHoldsItsSamples(s, c1, mem, from + 1, w - 1, tail.events, e);
    }
  }

  /** The fields of a packet describe the table it comes from: number, rate and size of its active
      entries, none cut by the width of its field, and the table's NUL-terminated signature. */
  lemma PacketDescribesTable(s: Setup, data: seq<u8>)
    requires SetupOk(s) && Coherent(s)
    ensures
      var p := PacketOf(s, data);
      && p.data == data
      && p.addrCount == ActiveCount(s.entry)
      && p.rate == DelaySum(s.entry, ActiveCount(s.entry))
      && p.byteCount == LengthSum(s.entry, ActiveCount(s.entry)) <= 4 * |s.entry|
      && |p.signature| == |s.signature|
      && TextLength(p.signature) == (if HasNul(s.signature) || s.signature == "" then TextLength(s.signature)
                                     else |s.signature| - 1)
      && p.signature[..TextLength(p.signature)] == s.signature[..TextLength(p.signature)]
  {
    hide CopySignature, TextLength, HasNul, LengthSum, DelaySum;
    LengthSumBound(s.entry, ActiveCount(s.entry));
    CopySignatureKeepsText(s.signature);
  }
}
