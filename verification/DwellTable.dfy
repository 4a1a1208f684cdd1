/** The control structure and packet of one dwell stream, updated in place. */
module DwellTables {
  import opened Types
  import opened Summary
  import opened Engine
  import opened AnyTable
  import opened Signatures
  import opened Validation
  import opened Commands

  method MemCpy(dst: array<u8>, offset: nat, bytes: seq<u8>)
    requires offset + |bytes| <= dst.Length
    modifies dst
    ensures dst[..] == Overwrite(old(dst[..]), offset, bytes)
  {
    forall i | 0 <= i < |bytes| {
      dst[offset + i] := bytes[i];
    }
  }

  class DwellTable {
    var enabled: u16
    var addrCount: u16
    var rate: u32
    var countdown: u32
    var pktOffset: u16
    var currentEntry: u16
    var dataSize: u16
    const entry: array<ControlEntry>
    var signature: string
    const data: array<u8>

    // the packet's other fields; they keep what was last sent
    var pktAddrCount: u8
    var pktRate: u32
    var pktSignature: string
    var pktByteCount: u16

    // everything the stream did so far, oldest first
    ghost var trace: seq<Event>

    ghost function SetupView(): Setup
      reads this`enabled, this`addrCount, this`rate, this`dataSize, this`signature, entry
    {
      Setup(enabled, addrCount, rate, dataSize, entry[..], signature)
    }

    ghost function CursorView(): Cursor
      reads this`countdown, this`currentEntry, this`pktOffset, data
    {
      Cursor(countdown, currentEntry, pktOffset, data[..])
    }

    ghost function View(): Table
      reads this, entry, data
    {
      Table(SetupView(), CursorView())
    }

    /** The packet as it would be transmitted now. */
    ghost function PacketView(): Packet
      reads this`pktAddrCount, this`pktRate, this`pktSignature, this`pktByteCount, data
    {
      Packet(pktAddrCount, pktRate, pktSignature, pktByteCount, data[..])
    }

    /** A cleared control structure. */
    constructor (size: nat, signatureLength: nat)
      requires 1 <= size <= MAX_TABLE_SIZE
      ensures fresh(entry) && fresh(data)
      ensures View() == Cleared(size, signatureLength)
      ensures trace == []
    {
      enabled, addrCount, rate, dataSize := DISABLED, 0, 0, 0;
      signature := seq(signatureLength, _ => '\0');
      entry := new ControlEntry[size](_ => Entry(0, 0, 0));
      // A countdown of 1 makes the first wakeup after enabling the one that samples.
      countdown, currentEntry, pktOffset := 1, 0, 0;
      data := new u8[4 * size](_ => 0);
      pktAddrCount, pktRate, pktSignature, pktByteCount := 0, 0, seq(signatureLength, _ => '\0'), 0;
      trace := [];
    }

    /** Read one entry's memory into the packet; a failed read only advances the offset. */
    method GetDwellData(mem: Memory, now: nat) returns (status: int)
      requires Sized(View()) && Fits(SetupView(), CursorView(), mem, now)
      modifies this`pktOffset, data
      ensures CursorView() == Fetched(old(SetupView()), old(CursorView()), mem, now)
      ensures status == CodeFor(SetupView(), mem, currentEntry, now)
      ensures
        var e := entry[currentEntry];
        SampleStored(e, mem(ReadRequest(now, currentEntry, e.address, e.length)), old(pktOffset), old(data[..]),
                     data[..], status)
      ensures pktOffset == (old(pktOffset) + entry[currentEntry].length % 0x100) % U16_SPAN
    {
      FetchedReads(SetupView(), CursorView(), mem, now);
      var e := entry[currentEntry];
      var numBytes := e.length % 0x100;
      var memReadVal: Word := [0, 0, 0, 0];
      status := SUCCESS;
      if numBytes == 1 || numBytes == 2 || numBytes == 4 {
        var got := mem(ReadRequest(now, currentEntry, e.address, e.length));
        if got.Some? {
          memReadVal := got.value;
        } else {
          status := if numBytes == 1 then ONE_BYTE_READ_ERR
                    else if numBytes == 2 then TWO_BYTE_READ_ERR
                    else FOUR_BYTE_READ_ERR;
        }
      } else {
        status := INVALID_LENGTH;
      }
      if status == SUCCESS {
        MemCpy(data, pktOffset, memReadVal[..numBytes]);
      }
      pktOffset := (pktOffset + numBytes) % U16_SPAN;
    }

    /** Fill in the packet's fields from the control structure and send it with the data built so far. */
    method SendDwellPkt(now: nat)
      modifies this`pktAddrCount, this`pktRate, this`pktSignature, this`pktByteCount, this`trace
      ensures PacketView() == PacketOf(SetupView(), data[..])
      ensures trace == old(trace) + [Send(now, PacketOf(SetupView(), data[..]))]
    {
      pktAddrCount := addrCount % 0x100;
      pktRate := rate;
      pktSignature := CopySignature(signature);
      pktByteCount := dataSize;
      trace := trace + [Send(now, PacketView())];
    }

    /** The body of the inner loop: one entry's data, then the packet if that was the last one. */
    method CollectEntry(mem: Memory, now: nat) returns (result: int)
      requires Sized(View())
      requires currentEntry < addrCount && Collect(SetupView(), CursorView(), mem, now).Some?
      modifies this`countdown, this`pktOffset, this`currentEntry, this`trace, data,
               this`pktAddrCount, this`pktRate, this`pktSignature, this`pktByteCount
      ensures CursorView() == Collect(SetupView(), old(CursorView()), mem, now).value.cursor
      ensures trace == old(trace) + Collect(SetupView(), old(CursorView()), mem, now).value.events
      ensures result == CodeFor(SetupView(), mem, old(currentEntry), now)
    {
      hide Fetched, CodeFor, PacketOf;
      var entryIndex := currentEntry;
      result := GetDwellData(mem, now);
      trace := trace + [SampleOf(SetupView(), mem, entryIndex, now)];
      if entryIndex == addrCount - 1 {
        SendDwellPkt(now);
        countdown := entry[entryIndex].delay;
        currentEntry := 0;
        pktOffset := 0;
      } else {
        countdown := entry[entryIndex].delay;
        currentEntry := currentEntry + 1;
      }
    }

    /** while (Countdown == 0): collect entry after entry. The precondition is exactly that the loop
        ends and stays inside the data area. */
    method CollectWhileDue(mem: Memory, now: nat, statusIn: int) returns (status: int)
      requires Sized(View())
      requires currentEntry < addrCount
      requires countdown == 0 ==> HasDelay(SetupView())
      requires Iterate(SetupView(), CursorView(), mem, now, addrCount).Some?
      modifies this`countdown, this`pktOffset, this`currentEntry, this`trace, data,
               this`pktAddrCount, this`pktRate, this`pktSignature, this`pktByteCount
      ensures CursorView() == Iterate(SetupView(), old(CursorView()), mem, now, addrCount).value.cursor
      ensures trace == old(trace) + Iterate(SetupView(), old(CursorView()), mem, now, addrCount).value.events
      ensures status == LastError(statusIn, Iterate(SetupView(), old(CursorView()), mem, now, addrCount).value.events)
    {
      hide Collect, CodeFor, HasDelay;
      status := statusIn;
      ghost var s, cur, n: nat := SetupView(), CursorView(), addrCount;
      ghost var whole := Iterate(s, cur, mem, now, n).value;
      ghost var rest := whole;
      ghost var done := [];
      while countdown == 0
        invariant SetupView() == s && CursorView() == cur
        invariant CursorSized(|s.entry|, cur) && cur.currentEntry < s.addrCount
        invariant cur.countdown == 0 ==> HasDelay(s) && n >= Remaining(s, cur)
        invariant Iterate(s, cur, mem, now, n) == Some(rest)
        invariant rest.cursor == whole.cursor
        invariant whole.events == done + rest.events
        invariant trace == old(trace) + done
        invariant status == LastError(statusIn, done)
        decreases if cur.countdown == 0 then Remaining(s, cur) else 0
      {
        IterateFromFront(s, cur, mem, now, n);
        ghost var pass := Collect(s, cur, mem, now).value;
        var result := CollectEntry(mem, now);
        if result != SUCCESS {
          status := result;
        }
        CollectError(s, cur, mem, now, LastError(statusIn, done));
        LastErrorConcat(statusIn, done, pass.events);
        n := n - 1;
        rest := Iterate(s, pass.cursor, mem, now, n).value;
        Associate(old(trace), done, pass.events);
        Associate(done, pass.events, rest.events);
        done := done + pass.events;
        cur := pass.cursor;
      }
      assert whole.events == done;
    }

    /** Dwell processing of this table for one wakeup that ends and stays inside the data area. */
    method ProcessWakeup(mem: Memory, now: nat, statusIn: int) returns (status: int)
      requires Sized(View()) && WakeupAny(View(), mem, now).Some?
      modifies this`countdown, this`pktOffset, this`currentEntry, this`trace, data,
               this`pktAddrCount, this`pktRate, this`pktSignature, this`pktByteCount
      ensures CursorView() == WakeupAny(old(View()), mem, now).value.cursor
      ensures trace == old(trace) + WakeupAny(old(View()), mem, now).value.events
      ensures status == LastError(statusIn, WakeupAny(old(View()), mem, now).value.events)
    {
      hide Iterate, PacketOf;
      status := statusIn;
      var numDwellAddresses := addrCount;
      if enabled == ENABLED && rate > 0 {
        if currentEntry >= numDwellAddresses {
          SendDwellPkt(now);
          currentEntry := 0;
          pktOffset := 0;
          countdown := entry[numDwellAddresses - 1].delay;
        } else {
          countdown := (countdown + U32_SPAN - 1) % U32_SPAN;
          status := CollectWhileDue(mem, now, status);
        }
      }
    }

    /** The next wakeup takes the first entry's sample. */
    method StartDwellStream()
      modifies this`countdown, this`currentEntry, this`pktOffset
      ensures CursorView() == Cursor(1, 0, 0, old(data[..]))
    {
      countdown := 1;
      currentEntry := 0;
      pktOffset := 0;
    }

    /** Recompute the summary fields from the entries. */
    method UpdateDwellControlInfo()
      requires entry.Length <= MAX_TABLE_SIZE
      modifies this`addrCount, this`dataSize, this`rate
      ensures SetupView() == Summarised(old(SetupView()))
    {
      ghost var all := entry[..];
      var entryIndex := 0;
      var numDwellAddresses: u16 := 0;
      var numDwellDataBytes: u16 := 0;
      var numDwellDelayCounts: u32 := 0;
      while entryIndex < entry.Length && entry[entryIndex].length != 0
        invariant entryIndex == numDwellAddresses <= entry.Length
        invariant forall i :: 0 <= i < entryIndex ==> all[i].length != 0
        invariant numDwellDataBytes == LengthSum(all, entryIndex) % U16_SPAN
        invariant numDwellDelayCounts == DelaySum(all, entryIndex)
      {
        WrapAdd(LengthSum(all, entryIndex), all[entryIndex].length);
        numDwellAddresses := numDwellAddresses + 1;
        numDwellDataBytes := (numDwellDataBytes + entry[entryIndex].length) % U16_SPAN;
        DelaySumBound(all, entryIndex + 1);
        numDwellDelayCounts := (numDwellDelayCounts + entry[entryIndex].delay) % U32_SPAN;
        entryIndex := entryIndex + 1;
      }
      ActiveCountIs(all, entryIndex);
      addrCount := numDwellAddresses;
      dataSize := numDwellDataBytes;
      rate := numDwellDelayCounts;
    }

    /** Copy a load in, entry by entry. A symbol that does not resolve leaves the last resolved
        address in place. */
    method CopyUpdatedTbl(env: Env, tbl: LoadTable)
      requires |tbl.entry| == entry.Length <= MAX_TABLE_SIZE
      modifies this`enabled, this`signature, this`addrCount, this`dataSize, this`rate, entry
      ensures SetupView() == CopyOf(env, tbl)
    {
      enabled := tbl.enabled % U16_SPAN;
      signature := CopySignature(tbl.signature);
      var resolvedAddr := 0;
      var entryIndex := 0;
      while entryIndex < entry.Length
        invariant entryIndex <= entry.Length
        invariant enabled == tbl.enabled % U16_SPAN && signature == CopySignature(tbl.signature)
        invariant resolvedAddr == Carry(env, tbl.entry, entryIndex)
        invariant forall i :: 0 <= i < entryIndex ==> entry[i] == CopyEntry(env, tbl.entry, i)
      {
        var thisLoadEntry := tbl.entry[entryIndex];
        var resolved := ResolveSymAddr(env, thisLoadEntry.address);
        if resolved.Some? {
          resolvedAddr := resolved.value;
        }
        entry[entryIndex] := Entry(thisLoadEntry.length, thisLoadEntry.delay, resolvedAddr);
        entryIndex := entryIndex + 1;
      }
      assert entry[..] == CopyEntries(env, tbl.entry);
      ghost var s := SetupView();
      UpdateDwellControlInfo();
      assert SetupView() == Summarised(s.(addrCount := 0, rate := 0, dataSize := 0));
    }
  }

  /** The copy of a table that Table Services manages. `accessOk` says whether its address
      could be obtained. */
  class TableBuffer {
    var enabled: int
    var signature: string
    var entry: seq<LoadEntry>

    ghost function Contents(): LoadTable
      reads this
    {
      LoadTable(enabled, signature, entry)
    }

    constructor (tbl: LoadTable)
      ensures Contents() == tbl
    {
      enabled, signature, entry := tbl.enabled, tbl.signature, tbl.entry;
    }

    method UpdateEnabledField(fieldValue: u16, accessOk: bool) returns (success: bool)
      modifies this`enabled
      ensures success == accessOk
      ensures enabled == if accessOk then fieldValue else old(enabled)
    {
      if accessOk {
        enabled := fieldValue;
      }
      success := accessOk;
    }

    method UpdateDwellEntry(entryIndex: nat, newLength: u16, newDelay: u16, newAddress: SymAddr, accessOk: bool)
      returns (success: bool)
      requires entryIndex < |entry|
      modifies this`entry
      ensures success == accessOk
      ensures entry == if accessOk then old(entry)[entryIndex := Entry(newLength, newDelay, newAddress)] else old(entry)
    {
      if accessOk {
        entry := entry[entryIndex := Entry(newLength, newDelay, newAddress)];
      }
      success := accessOk;
    }

    method UpdateSignature(newSignature: string, accessOk: bool) returns (success: bool)
      modifies this`signature
      ensures success == accessOk
      ensures signature == if accessOk then CopySignature(newSignature) else old(signature)
    {
      if accessOk {
        signature := CopySignature(newSignature);
      }
      success := accessOk;
    }

    /** Table Services puts a validated load in place. */
    method Replace(tbl: LoadTable)
      modifies this
      ensures Contents() == tbl
    {
      enabled, signature, entry := tbl.enabled, tbl.signature, tbl.entry;
    }
  }
}
