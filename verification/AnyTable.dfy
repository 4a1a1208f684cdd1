/** One wakeup of a table whose entries may have any length. Validation does not look behind the
    first null entry of a load, and a Jam can make what lies there active. */
module AnyTable {
  import opened Types
  import opened Summary
  import opened Engine

  ghost predicate SetupSized(s: Setup) {
    && 1 <= |s.entry| <= MAX_TABLE_SIZE
    && s.addrCount <= |s.entry|
    && (s.rate > 0 ==> s.addrCount > 0)
  }

  ghost predicate CursorSized(size: nat, c: Cursor) {
    && |c.data| == 4 * size
    && c.currentEntry < size
  }

  ghost predicate Sized(t: Table) {
    SetupSized(t.setup) && CursorSized(|t.setup.entry|, t.cursor)
  }

  /** The write offset is where legal lengths can have taken it. */
  predicate InBounds(c: Cursor) {
    c.pktOffset <= 4 * c.currentEntry
  }

  /** What is read for the current entry, if anything, fits into the data area. */
  predicate Fits(s: Setup, c: Cursor, mem: Memory, now: nat)
    requires c.currentEntry < |s.entry|
  {
    CodeFor(s, mem, c.currentEntry, now) == SUCCESS ==>
      c.pktOffset + s.entry[c.currentEntry].length % 0x100 <= |c.data|
  }

  /** Read the current entry into the packet and advance the write offset, by the length's low byte. */
  function Fetched(s: Setup, c: Cursor, mem: Memory, now: nat): (r: Cursor)
    requires c.currentEntry < |s.entry| && Fits(s, c, mem, now)
    ensures |r.data| == |c.data|
  {
    var k := c.currentEntry;
    var numBytes := s.entry[k].length % 0x100;
    var data := if CodeFor(s, mem, k, now) == SUCCESS then
                  Overwrite(c.data, c.pktOffset, mem(RequestFor(s, k, now)).value[..numBytes])
                else c.data;
    c.(data := data, pktOffset := (c.pktOffset + numBytes) % U16_SPAN)
  }

  /** One pass of the loop body; None is a write outside the data area. */
  function Collect(s: Setup, c: Cursor, mem: Memory, now: nat): (r: Option<Step>)
    requires SetupSized(s) && CursorSized(|s.entry|, c)
    requires c.currentEntry < s.addrCount
    ensures r.Some? ==>
              && CursorSized(|s.entry|, r.value.cursor)
              && r.value.cursor.currentEntry == NextSlot(s, c.currentEntry)
              && r.value.cursor.countdown == s.entry[c.currentEntry].delay
  {
    if !Fits(s, c, mem, now) then None
    else
      var k := c.currentEntry;
      var c1 := Fetched(s, c, mem, now).(countdown := s.entry[k].delay);
      var sample := SampleOf(s, mem, k, now);
      if k == s.addrCount - 1 then
        Some(Step(c1.(currentEntry := 0, pktOffset := 0), [sample, Send(now, PacketOf(s, c1.data))]))
      else
        Some(Step(c1.(currentEntry := k + 1), [sample]))
  }

  /** The first n passes of while (Countdown == 0), or fewer if the loop ends before. */
  function Iterate(s: Setup, c: Cursor, mem: Memory, now: nat, n: nat): (r: Option<Step>)
    requires SetupSized(s) && CursorSized(|s.entry|, c)
    requires c.currentEntry < s.addrCount
    ensures r.Some? ==> CursorSized(|s.entry|, r.value.cursor) && r.value.cursor.currentEntry < s.addrCount
    decreases n
  {
    if n == 0 || c.countdown != 0 then Some(Step(c, []))
    else
      match Collect(s, c, mem, now)
      case None => None
      case Some(p) =>
        match Iterate(s, p.cursor, mem, now, n - 1)
        case None => None
        case Some(r) => Some(Step(r.cursor, p.events + r.events))
  }

  /** One wakeup; None if it does not end, or writes outside the data area. */
  ghost function WakeupAny(t: Table, mem: Memory, now: nat): (r: Option<Step>)
    requires Sized(t)
    ensures r.Some? ==> Sized(Table(t.setup, r.value.cursor))
  {
    var (s, c) := (t.setup, t.cursor);
    if !Processed(s) then
      Some(Step(c, []))
    else if c.currentEntry >= s.addrCount then
      Some(Step(c.(currentEntry := 0, pktOffset := 0, countdown := s.entry[s.addrCount - 1].delay),
                [Send(now, PacketOf(s, c.data))]))
    else if Hangs(t) then None
    else Iterate(s, Ticked(c), mem, now, s.addrCount)
  }

  /** Some pass of this wakeup, be it one of a loop that never ends, writes outside the data area. */
  ghost predicate Overwrites(t: Table, mem: Memory, now: nat)
    requires Sized(t)
  {
    && Processed(t.setup)
    && t.cursor.currentEntry < t.setup.addrCount
    && exists n: nat :: Iterate(t.setup, Ticked(t.cursor), mem, now, n).None?
  }

  // ----- what is read and where it goes

  lemma FetchedReads(s: Setup, c: Cursor, mem: Memory, now: nat)
    requires c.currentEntry < |s.entry| && Fits(s, c, mem, now)
    ensures
      var k := c.currentEntry;
      var got := mem(ReadRequest(now, k, s.entry[k].address, s.entry[k].length));
      SampleStored(s.entry[k], got, c.pktOffset, c.data, Fetched(s, c, mem, now).data, CodeFor(s, mem, k, now))
  {
  }

  /** One pass, told without the functions that make it up: memory is asked for the current entry's own
      address and length; the bytes it answers are stored at the write offset, and nothing else changes
      in the data area; the event names that read and its code; and after the last active entry a packet
      goes out that carries this data area. A pass leaves the data area exactly if what was read does
      not fit. */
  lemma CollectReads(s: Setup, c: Cursor, mem: Memory, now: nat)
    requires SetupSized(s) && CursorSized(|s.entry|, c)
    requires c.currentEntry < s.addrCount
    ensures
      var k := c.currentEntry;
      var (e, n) := (s.entry[k], s.entry[k].length % 0x100);
      var got := mem(ReadRequest(now, k, e.address, e.length));
      var r := Collect(s, c, mem, now);
      && (r.None? <==> (n == 1 || n == 2 || n == 4) && got.Some? && c.pktOffset + n > |c.data|)
      && (r.Some? ==>
            && |r.value.events| == (if k == s.addrCount - 1 then 2 else 1)
            && r.value.events[0].Sample?
            && SampleStored(e, got, c.pktOffset, c.data, r.value.cursor.data, r.value.events[0].code)
            && r.value.events[0] == Sample(now, k, e.address, e.length, r.value.events[0].code)
            && (k == s.addrCount - 1 ==>
                  && r.value.events[1].Send? && r.value.events[1].at == now
                  && r.value.events[1].packet.data == r.value.cursor.data)
            && (k != s.addrCount - 1 ==> r.value.cursor.pktOffset == (c.pktOffset + n) % U16_SPAN))
  {
    if Fits(s, c, mem, now) {
      FetchedReads(s, c, mem, now);
    }
  }

  // ----- a loop that can end has ended after AddrCount passes

  lemma RemainingFalls(s: Setup, c: Cursor, c': Cursor)
    requires SetupSized(s) && c.currentEntry < s.addrCount && c'.currentEntry < s.addrCount
    requires c.countdown == 0 && HasDelay(s)
    requires c'.currentEntry == NextSlot(s, c.currentEntry)
    requires c'.countdown == s.entry[c.currentEntry].delay
    ensures Remaining(s, c') < Remaining(s, c)
  {
  }

  lemma {:induction false} IterateEnds(s: Setup, c: Cursor, mem: Memory, now: nat, n: nat)
    requires SetupSized(s) && CursorSized(|s.entry|, c)
    requires c.currentEntry < s.addrCount
    requires HasDelay(s) && n >= Remaining(s, c)
    requires Iterate(s, c, mem, now, n).Some?
    ensures Iterate(s, c, mem, now, n).value.cursor.countdown != 0
    decreases n
  {
    if c.countdown == 0 {
      var p := Collect(s, c, mem, now).value.cursor;
      RemainingFalls(s, c, p);
      IterateEnds(s, p, mem, now, n - 1);
    }
  }

  /** The first pass of a loop that ends in n passes, and what is left of it. */
  lemma IterateFromFront(s: Setup, c: Cursor, mem: Memory, now: nat, n: nat)
    requires SetupSized(s) && CursorSized(|s.entry|, c)
    requires c.currentEntry < s.addrCount
    requires c.countdown == 0 && HasDelay(s) && n >= Remaining(s, c)
    requires Iterate(s, c, mem, now, n).Some?
    ensures n > 0 && Collect(s, c, mem, now).Some?
    ensures
      var p := Collect(s, c, mem, now).value;
      && Remaining(s, p.cursor) < Remaining(s, c)
      && n - 1 >= Remaining(s, p.cursor)
      && Iterate(s, p.cursor, mem, now, n - 1).Some?
      && Iterate(s, c, mem, now, n).value.cursor == Iterate(s, p.cursor, mem, now, n - 1).value.cursor
      && Iterate(s, c, mem, now, n).value.events == p.events + Iterate(s, p.cursor, mem, now, n - 1).value.events
  {
    hide Collect;
    if Collect(s, c, mem, now).Some? {
      RemainingFalls(s, c, Collect(s, c, mem, now).value.cursor);
    }
  }

  lemma CollectError(s: Setup, c: Cursor, mem: Memory, now: nat, status: int)
    requires SetupSized(s) && CursorSized(|s.entry|, c)
    requires c.currentEntry < s.addrCount && Collect(s, c, mem, now).Some?
    ensures LastError(status, Collect(s, c, mem, now).value.events) ==
            var code := CodeFor(s, mem, c.currentEntry, now); if code != SUCCESS then code else status
  {
    var sample := SampleOf(s, mem, c.currentEntry, now);
    assert LastError(status, [sample]) == if sample.code != SUCCESS then sample.code else status;
    var events := Collect(s, c, mem, now).value.events;
    if |events| == 2 {
      assert events[..1] == [sample];
    }
  }

  // ----- with legal lengths this is the engine's wakeup

  lemma CollectIsPass(s: Setup, c: Cursor, mem: Memory, now: nat)
    requires SetupOk(s) && CursorOk(|s.entry|, c)
    requires c.currentEntry < s.addrCount
    ensures Collect(s, c, mem, now) == Some(Pass(s, c, mem, now))
  {
    assert FieldLength(s.entry[c.currentEntry].length);
  }

  lemma {:induction false} IterateIsDrain(s: Setup, c: Cursor, mem: Memory, now: nat, n: nat)
    requires SetupOk(s) && CursorOk(|s.entry|, c)
    requires c.currentEntry < s.addrCount
    requires HasDelay(s) && n >= Remaining(s, c)
    ensures Iterate(s, c, mem, now, n) == Some(Drain(s, c, mem, now))
    decreases n
  {
    hide Collect, Pass;
    if c.countdown == 0 {
      var p := Pass(s, c, mem, now);
      CollectIsPass(s, c, mem, now);
      DrainFromFront(s, c, mem, now, p);
      IterateIsDrain(s, p.cursor, mem, now, n - 1);
    }
  }

  /** On a well-formed table the general wakeup is the engine's, and None is a loop that never ends. */
  lemma WakeupAnyIs(t: Table, mem: Memory, now: nat)
    requires WellFormed(t)
    ensures Sized(t)
    ensures WakeupAny(t, mem, now) == if Hangs(t) then None else Some(Wakeup(t, mem, now))
  {
    hide Iterate, Drain;
    var (s, c) := (t.setup, t.cursor);
    if Processed(s) && c.currentEntry < s.addrCount && !Hangs(t) {
      if HasDelay(s) {
        IterateIsDrain(s, Ticked(c), mem, now, s.addrCount);
      } else {
        IterateIdle(s, Ticked(c), mem, now, s.addrCount);
      }
    }
  }

  lemma IterateIdle(s: Setup, c: Cursor, mem: Memory, now: nat, n: nat)
    requires SetupOk(s) && CursorOk(|s.entry|, c)
    requires c.currentEntry < s.addrCount && c.countdown != 0
    ensures Iterate(s, c, mem, now, n) == Some(Step(c, [])) == Some(Drain(s, c, mem, now))
  {
  }

  // ----- which lengths keep the writes inside

  /** No active entry but the last takes more than its four bytes of the data area. */
  ghost predicate ActiveFit(s: Setup)
    requires s.addrCount <= |s.entry|
  {
    forall i :: 0 <= i < s.addrCount - 1 ==> s.entry[i].length % 0x100 <= 4
  }

  lemma CollectFits(s: Setup, c: Cursor, mem: Memory, now: nat)
    requires SetupSized(s) && CursorSized(|s.entry|, c)
    requires c.currentEntry < s.addrCount
    requires ActiveFit(s) && InBounds(c)
    ensures Collect(s, c, mem, now).Some? && InBounds(Collect(s, c, mem, now).value.cursor)
  {
  }

  lemma {:induction false} IterateFits(s: Setup, c: Cursor, mem: Memory, now: nat, n: nat)
    requires SetupSized(s) && CursorSized(|s.entry|, c)
    requires c.currentEntry < s.addrCount
    requires ActiveFit(s) && InBounds(c)
    ensures Iterate(s, c, mem, now, n).Some? && InBounds(Iterate(s, c, mem, now, n).value.cursor)
    decreases n
  {
    hide Collect, ActiveFit;
    if n > 0 && c.countdown == 0 {
      CollectFits(s, c, mem, now);
      IterateFits(s, Collect(s, c, mem, now).value.cursor, mem, now, n - 1);
    }
  }

  /** Then no pass of any wakeup, not even of one that never ends, writes outside. */
  lemma WakeupFits(t: Table, mem: Memory, now: nat)
    requires Sized(t) && ActiveFit(t.setup) && InBounds(t.cursor)
    ensures !Overwrites(t, mem, now)
    ensures WakeupAny(t, mem, now).None? <==> Hangs(t)
    ensures WakeupAny(t, mem, now).Some? ==> InBounds(WakeupAny(t, mem, now).value.cursor)
  {
    hide Iterate, ActiveFit;
    if Processed(t.setup) && t.cursor.currentEntry < t.setup.addrCount {
      forall n: nat ensures Iterate(t.setup, Ticked(t.cursor), mem, now, n).Some? {
        IterateFits(t.setup, Ticked(t.cursor), mem, now, n);
      }
      IterateFits(t.setup, Ticked(t.cursor), mem, now, t.setup.addrCount);
    }
  }
}
