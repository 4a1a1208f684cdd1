/** What one wakeup does to one dwell table, as a function of its control structure. */
module Engine {
  import opened Types
  import opened Signatures
  import opened Summary

  // Status codes of a sample.
  const SUCCESS := 0
  const ONE_BYTE_READ_ERR := -1
  const TWO_BYTE_READ_ERR := -2
  const FOUR_BYTE_READ_ERR := -3
  const INVALID_LENGTH := -4

  datatype Step = Step(cursor: Cursor, events: seq<Event>)

  // ----- what every operation keeps

  ghost predicate SetupOk(s: Setup) {
    && 1 <= |s.entry| <= MAX_TABLE_SIZE
    && FieldLengths(s.entry)
    && s.addrCount <= |s.entry|
    && (s.rate > 0 ==> s.addrCount > 0)
  }

  ghost predicate CursorOk(size: nat, c: Cursor) {
    && |c.data| == 4 * size
    && c.currentEntry < size
    && c.pktOffset <= 4 * c.currentEntry
  }

  /** Holds of a table in every reachable state, whatever commands, loads and failures it met. */
  ghost predicate WellFormed(t: Table) {
    SetupOk(t.setup) && CursorOk(|t.setup.entry|, t.cursor)
  }

  /** The summary fields describe the entries. */
  ghost predicate Coherent(s: Setup) {
    && s.addrCount == ActiveCount(s.entry)
    && s.dataSize == LengthSum(s.entry, ActiveCount(s.entry))
    && s.rate == DelaySum(s.entry, ActiveCount(s.entry))
  }

  /** The summary fields are the sums over the active entries in the fields' own widths. */
  ghost predicate Summarises(s: Setup) {
    && s.addrCount == ActiveCount(s.entry)
    && s.dataSize == LengthSum(s.entry, ActiveCount(s.entry)) % U16_SPAN
    && s.rate == DelaySum(s.entry, ActiveCount(s.entry))
  }

  /** DataSize holds the sum of the active lengths. */
  ghost predicate SizeFits(s: Setup) {
    LengthSum(s.entry, ActiveCount(s.entry)) < U16_SPAN
  }

  lemma CoherentIs(s: Setup)
    ensures Coherent(s) <==> Summarises(s) && SizeFits(s)
  {
  }

  lemma LegalSizeFits(s: Setup)
    requires SetupOk(s)
    ensures SizeFits(s)
  {
    LengthSumBound(s.entry, ActiveCount(s.entry));
  }

  /** The engine looks at this table at all. */
  predicate Processed(s: Setup) {
    s.enabled == ENABLED && s.rate > 0
  }

  ghost predicate HasDelay(s: Setup)
    requires s.addrCount <= |s.entry|
  {
    exists j :: 0 <= j < s.addrCount && s.entry[j].delay > 0
  }

  lemma SummaryHasDelay(s: Setup)
    requires Summarises(s) && s.rate > 0
    ensures s.addrCount > 0 && HasDelay(s)
  {
    DelaySumPositive(s.entry, s.addrCount);
  }

  lemma CoherentHasDelay(s: Setup)
    requires Coherent(s) && s.rate > 0
    ensures s.addrCount > 0 && HasDelay(s)
  {
    DelaySumPositive(s.entry, s.addrCount);
  }

  // ----- one pass of the inner loop

  function ReadCode(numBytes: nat, got: Option<Word>): int {
    if numBytes == 1 then
      if got.Some? then SUCCESS else ONE_BYTE_READ_ERR
    else if numBytes == 2 then
      if got.Some? then SUCCESS else TWO_BYTE_READ_ERR
    else if numBytes == 4 then
      if got.Some? then SUCCESS else FOUR_BYTE_READ_ERR
    else INVALID_LENGTH
  }

  function RequestFor(s: Setup, slot: nat, now: nat): ReadRequest
    requires slot < |s.entry|
  {
    ReadRequest(now, slot, s.entry[slot].address, s.entry[slot].length)
  }

  /** Status of the sample of a slot at a wakeup. */
  function CodeFor(s: Setup, mem: Memory, slot: nat, now: nat): int
    requires slot < |s.entry|
  {
    ReadCode(s.entry[slot].length % 0x100, mem(RequestFor(s, slot, now)))
  }

  /** What taking an entry does to the data area and which code it has, told from what memory answered
      to the read of that very entry. */
  ghost predicate SampleStored(e: ControlEntry, got: Option<Word>, offset: nat, before: seq<u8>, after: seq<u8>,
                               code: int)
  {
    var n := e.length % 0x100;
    && |after| == |before|
    && if (n == 1 || n == 2 || n == 4) && got.Some? then
         && code == SUCCESS
         && offset + n <= |before|
         && after[..offset] == before[..offset]
         && after[offset..offset + n] == got.value[..n]
         && after[offset + n..] == before[offset + n..]
       else
         && after == before
         && code == if n == 1 then ONE_BYTE_READ_ERR
                    else if n == 2 then TWO_BYTE_READ_ERR
                    else if n == 4 then FOUR_BYTE_READ_ERR
                    else INVALID_LENGTH
  }

  /** data with bytes written over it from offset on. */
  function Overwrite(data: seq<u8>, offset: nat, bytes: seq<u8>): (r: seq<u8>)
    requires offset + |bytes| <= |data|
    ensures |r| == |data|
    ensures forall i :: 0 <= i < |r| ==>
              r[i] == if offset <= i < offset + |bytes| then bytes[i - offset] else data[i]
  {
    data[..offset] + bytes + data[offset + |bytes|..]
  }

  /** The packet data after slot k's sample is written at an offset; a failed read writes nothing. */
  function Store(s: Setup, mem: Memory, data: seq<u8>, offset: nat, k: nat, now: nat): (r: seq<u8>)
    requires k < |s.entry| && FieldLength(s.entry[k].length)
    requires offset + s.entry[k].length <= |data|
    ensures |r| == |data|
  {
    var numBytes := s.entry[k].length % 0x100;
    if CodeFor(s, mem, k, now) == SUCCESS then
      Overwrite(data, offset, mem(RequestFor(s, k, now)).value[..numBytes])
    else data
  }

  /** Read the current entry into the packet and advance the write offset. */
  function Fetch(s: Setup, c: Cursor, mem: Memory, now: nat): (r: Cursor)
    requires SetupOk(s) && CursorOk(|s.entry|, c)
    ensures |r.data| == |c.data|
    ensures r == c.(data := r.data, pktOffset := c.pktOffset + s.entry[c.currentEntry].length)
  {
    assert FieldLength(s.entry[c.currentEntry].length);
    var numBytes := s.entry[c.currentEntry].length % 0x100;
    var data := Store(s, mem, c.data, c.pktOffset, c.currentEntry, now);
    c.(data := data, pktOffset := (c.pktOffset + numBytes) % U16_SPAN)
  }

  function PacketOf(s: Setup, data: seq<u8>): Packet {
    Packet(s.addrCount % 0x100, s.rate, CopySignature(s.signature), s.dataSize, data)
  }

  function SampleOf(s: Setup, mem: Memory, slot: nat, now: nat): Event
    requires slot < |s.entry|
  {
    Sample(now, slot, s.entry[slot].address, s.entry[slot].length, CodeFor(s, mem, slot, now))
  }

  function NextSlot(s: Setup, k: nat): (r: nat)
    requires k < s.addrCount
    ensures r < s.addrCount
  {
    if k == s.addrCount - 1 then 0 else k + 1
  }

  /** One pass of the loop body: sample the current entry, then send and wrap, or move on. */
  function Pass(s: Setup, c: Cursor, mem: Memory, now: nat): (r: Step)
    requires SetupOk(s) && CursorOk(|s.entry|, c)
    requires c.currentEntry < s.addrCount
    ensures CursorOk(|s.entry|, r.cursor)
    ensures r.cursor.currentEntry == NextSlot(s, c.currentEntry)
    ensures r.cursor.countdown == s.entry[c.currentEntry].delay
  {
    assert FieldLength(s.entry[c.currentEntry].length);
    var delay := s.entry[c.currentEntry].delay;
    var c1 := Fetch(s, c, mem, now);
    var sample := SampleOf(s, mem, c.currentEntry, now);
    if c.currentEntry == s.addrCount - 1 then
      Step(c1.(countdown := delay, currentEntry := 0, pktOffset := 0), [sample, Send(now, PacketOf(s, c1.data))])
    else
      Step(c1.(countdown := delay, currentEntry := c.currentEntry + 1), [sample])
  }

  lemma Associate<T>(a: seq<T>, b: seq<T>, c: seq<T>)
    ensures (a + b) + c == a + (b + c)
  {
  }

  // ----- the inner loop

  ghost function LastDelay(entry: seq<ControlEntry>, n: nat): (z: nat)
    requires n <= |entry|
    requires exists j :: 0 <= j < n && entry[j].delay > 0
    ensures z < n && entry[z].delay > 0
  {
    if entry[n - 1].delay > 0 then n - 1 else LastDelay(entry, n - 1)
  }

  /** Bound on the passes left in this wakeup: the cyclic distance from the current entry to
      one whose delay ends the loop. */
  ghost function Remaining(s: Setup, c: Cursor): (r: nat)
    requires c.currentEntry < s.addrCount <= |s.entry|
    requires HasDelay(s)
    ensures r <= s.addrCount
  {
    var z := LastDelay(s.entry, s.addrCount);
    if c.countdown != 0 then 0
    else if c.currentEntry <= z then 1 + z - c.currentEntry
    else 1 + s.addrCount - c.currentEntry + z
  }

  /** while (Countdown == 0): pass after pass until some delay is nonzero. */
  ghost function Drain(s: Setup, c: Cursor, mem: Memory, now: nat): (r: Step)
    requires SetupOk(s) && CursorOk(|s.entry|, c)
    requires c.currentEntry < s.addrCount
    requires c.countdown == 0 ==> HasDelay(s)
    ensures CursorOk(|s.entry|, r.cursor)
    ensures r.cursor.countdown != 0
    ensures r.cursor.currentEntry < s.addrCount
    decreases if c.countdown == 0 then Remaining(s, c) else 0
  {
    if c.countdown != 0 then Step(c, [])
    else
      var p := Pass(s, c, mem, now);
      var r := Drain(s, p.cursor, mem, now);
      Step(r.cursor, p.events + r.events)
  }

  lemma DrainFromFront(s: Setup, c: Cursor, mem: Memory, now: nat, p: Step)
    requires SetupOk(s) && CursorOk(|s.entry|, c)
    requires c.currentEntry < s.addrCount
    requires c.countdown == 0 && HasDelay(s)
    requires p == Pass(s, c, mem, now)
    ensures p.cursor.countdown == 0 ==> Remaining(s, p.cursor) < Remaining(s, c)
    ensures Drain(s, c, mem, now).cursor == Drain(s, p.cursor, mem, now).cursor
    ensures Drain(s, c, mem, now).events == p.events + Drain(s, p.cursor, mem, now).events
  {
  }

  // ----- one wakeup

  /** The inner loop would start and never end: every active delay is zero. */
  ghost predicate Hangs(t: Table)
    requires t.setup.addrCount <= |t.setup.entry|
  {
    && Processed(t.setup)
    && t.cursor.currentEntry < t.setup.addrCount
    && t.cursor.countdown == 1
    && !HasDelay(t.setup)
  }

  /** A table shortened under the engine: its packet counts as full already. */
  predicate Overrun(t: Table) {
    Processed(t.setup) && t.cursor.currentEntry >= t.setup.addrCount
  }

  /** The 32-bit countdown after its decrement, which wraps at zero. */
  function Ticked(c: Cursor): Cursor {
    c.(countdown := (c.countdown + U32_SPAN - 1) % U32_SPAN)
  }

  ghost function Wakeup(t: Table, mem: Memory, now: nat): (r: Step)
    requires WellFormed(t)
    requires !Hangs(t)
    ensures WellFormed(Table(t.setup, r.cursor))
  {
    var (s, c) := (t.setup, t.cursor);
    if !Processed(s) then
      Step(c, [])
    else if c.currentEntry >= s.addrCount then
      Step(c.(currentEntry := 0, pktOffset := 0, countdown := s.entry[s.addrCount - 1].delay),
           [Send(now, PacketOf(s, c.data))])
    else
      Drain(s, Ticked(c), mem, now)
  }

  /** The wakeup status: the code of the last failed sample, or what it was before. */
  function LastError(status: int, events: seq<Event>): int {
    if events == [] then status
    else
      var e := events[|events| - 1];
      if e.Sample? && e.code != SUCCESS then e.code else LastError(status, events[..|events| - 1])
  }

  lemma {:induction false} LastErrorConcat(status: int, a: seq<Event>, b: seq<Event>)
    ensures LastError(status, a + b) == LastError(LastError(status, a), b)
  {
    if b == [] {
      assert a + b == a;
    } else {
      assert (a + b)[..|a + b| - 1] == a + b[..|b| - 1];
      LastErrorConcat(status, a, b[..|b| - 1]);
    }
  }

  predicate FailedSample(e: Event) {
    e.Sample? && e.code != SUCCESS
  }

  /** The status is the code of the last failed sample, and unchanged if there is none. */
  lemma {:induction false} LastErrorIs(status: int, events: seq<Event>)
    ensures (forall i :: 0 <= i < |events| ==> !FailedSample(events[i])) ==> LastError(status, events) == status
    ensures forall k :: 0 <= k < |events| && FailedSample(events[k]) &&
                        (forall i :: k < i < |events| ==> !FailedSample(events[i])) ==>
              LastError(status, events) == events[k].code
  {
    if events != [] {
      LastErrorIs(status, events[..|events| - 1]);
    }
  }

  // ----- what commands do to a table

  /** The cursor put back to the first entry. */
  function Restarted(c: Cursor, countdown: u32): Cursor {
    c.(countdown := countdown, currentEntry := 0, pktOffset := 0)
  }

  /** The summary fields recomputed from the entries, in their own widths. */
  function Summarised(s: Setup): (r: Setup)
    requires |s.entry| <= MAX_TABLE_SIZE
    ensures FieldLengths(s.entry) ==> Coherent(r)
    ensures 1 <= |s.entry| && FieldLengths(s.entry) ==> SetupOk(r)
  {
    var n := ActiveCount(s.entry);
    DelaySumBound(s.entry, n);
    assert FieldLengths(s.entry) ==> LengthSum(s.entry, n) <= 4 * n by {
      if FieldLengths(s.entry) {
        LengthSumBound(s.entry, n);
      }
    }
    s.(addrCount := n, dataSize := LengthSum(s.entry, n) % U16_SPAN, rate := DelaySum(s.entry, n) % U32_SPAN)
  }

  /** Whatever the entries, the recomputed summary is right. */
  lemma SummaryIsRight(s: Setup)
    requires |s.entry| <= MAX_TABLE_SIZE
    ensures Summarises(Summarised(s))
    ensures
      var r := Summarised(s);
      r.entry == s.entry && r.enabled == s.enabled && r.signature == s.signature
  {
    DelaySumBound(s.entry, ActiveCount(s.entry));
  }

  // ----- the loop ends exactly when some active delay is nonzero

  /** n passes in the same wakeup, whatever the countdown says. */
  function Passes(s: Setup, c: Cursor, mem: Memory, now: nat, n: nat): (r: Step)
    requires SetupOk(s) && CursorOk(|s.entry|, c)
    requires c.currentEntry < s.addrCount
    ensures CursorOk(|s.entry|, r.cursor)
    ensures r.cursor.currentEntry < s.addrCount
    decreases n
  {
    if n == 0 then Step(c, [])
    else
      var p := Pass(s, c, mem, now);
      var r := Passes(s, p.cursor, mem, now, n - 1);
      Step(r.cursor, p.events + r.events)
  }

  lemma {:induction false} ZeroDelaysNeverLeave(s: Setup, c: Cursor, mem: Memory, now: nat, n: nat)
    requires SetupOk(s) && CursorOk(|s.entry|, c)
    requires c.currentEntry < s.addrCount
    requires c.countdown == 0 && !HasDelay(s)
    ensures Passes(s, c, mem, now, n).cursor.countdown == 0
    decreases n
  {
    if n > 0 {
      ZeroDelaysNeverLeave(s, Pass(s, c, mem, now).cursor, mem, now, n - 1);
    }
  }

  /** The loop makes at most AddrCount passes, and every pass but the last leaves the countdown at 0. */
  lemma {:induction false} DrainIsPasses(s: Setup, c: Cursor, mem: Memory, now: nat) returns (n: nat)
    requires SetupOk(s) && CursorOk(|s.entry|, c)
    requires c.currentEntry < s.addrCount
    requires c.countdown == 0 && HasDelay(s)
    ensures 1 <= n <= Remaining(s, c) <= s.addrCount
    ensures Drain(s, c, mem, now) == Passes(s, c, mem, now, n)
    ensures forall k :: 0 <= k < n ==> Passes(s, c, mem, now, k).cursor.countdown == 0
    decreases Remaining(s, c)
  {
    var p := Pass(s, c, mem, now).cursor;
    if p.countdown != 0 {
      n := 1;
      assert Passes(s, p, mem, now, 0) == Drain(s, p, mem, now);
    } else {
      var m := DrainIsPasses(s, p, mem, now);
      n := m + 1;
      forall k | 0 < k < n
        ensures Passes(s, c, mem, now, k).cursor.countdown == 0
      {
        assert Passes(s, c, mem, now, k).cursor == Passes(s, p, mem, now, k - 1).cursor;
      }
    }
  }

  /** The inner loop, entered at countdown 0, ends after some number of passes if and only if
      one of the active entries has a nonzero delay; then AddrCount passes are enough. */
  lemma LoopEndsIffSomeDelay(s: Setup, c: Cursor, mem: Memory, now: nat)
    requires SetupOk(s) && CursorOk(|s.entry|, c)
    requires c.currentEntry < s.addrCount
    requires c.countdown == 0
    ensures (exists n: nat :: Passes(s, c, mem, now, n).cursor.countdown != 0) <==> HasDelay(s)
    ensures HasDelay(s) ==>
              exists n: nat :: n <= s.addrCount && Passes(s, c, mem, now, n).cursor.countdown != 0
  {
    if HasDelay(s) {
      var n := DrainIsPasses(s, c, mem, now);
      assert Passes(s, c, mem, now, n).cursor.countdown != 0;
    } else {
      forall n: nat ensures Passes(s, c, mem, now, n).cursor.countdown == 0 {
        ZeroDelaysNeverLeave(s, c, mem, now, n);
      }
    }
  }

  /** A wakeup hangs exactly if it enters the inner loop and the countdown is zero after every pass. */
  lemma HangsIff(t: Table, mem: Memory, now: nat)
    requires WellFormed(t)
    ensures Hangs(t) <==>
            && Processed(t.setup) && t.cursor.currentEntry < t.setup.addrCount
            && forall n: nat :: Passes(t.setup, Ticked(t.cursor), mem, now, n).cursor.countdown == 0
  {
    if Processed(t.setup) && t.cursor.currentEntry < t.setup.addrCount {
      assert Passes(t.setup, Ticked(t.cursor), mem, now, 0).cursor == Ticked(t.cursor);
      if t.cursor.countdown == 1 {
        LoopEndsIffSomeDelay(t.setup, Ticked(t.cursor), mem, now);
      }
    }
  }
}
