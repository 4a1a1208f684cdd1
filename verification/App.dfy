/** The application: every table's control structure and buffer, and the handlers that loop over
    them. Each handler does to every table what the single-table action says, and nothing to the
    tables its message does not address. */
module App {
  import opened Types
  import opened Summary
  import opened Engine
  import opened AnyTable
  import opened Signatures
  import opened Validation
  import opened Commands
  import opened DwellTables
  import opened Recovery
  import opened Telemetry
  import opened AppRuns

  /** Every table's wakeup ends and stays inside its data area. */
  ghost predicate CanWake(streams: seq<Stream>, mems: nat -> Memory, now: nat) {
    forall i :: 0 <= i < |streams| ==>
      StreamSized(streams[i]) && WakeupAny(streams[i].local, mems(i), now).Some?
  }

  /** Status of one wakeup over the first k tables: that of the last failed sample. */
  ghost function LoopStatus(streams: seq<Stream>, mems: nat -> Memory, now: nat, k: nat): int
    requires k <= |streams| && CanWake(streams, mems, now)
  {
    if k == 0 then SUCCESS
    else
      LastError(LoopStatus(streams, mems, now, k - 1), WakeupAny(streams[k - 1].local, mems(k - 1), now).value.events)
  }

  lemma LoopStatusNext(streams: seq<Stream>, mems: nat -> Memory, now: nat, k: nat)
    requires k < |streams| && CanWake(streams, mems, now)
    ensures StreamSized(streams[k]) && WakeupAny(streams[k].local, mems(k), now).Some?
    ensures LoopStatus(streams, mems, now, 0) == SUCCESS
    ensures LoopStatus(streams, mems, now, k + 1) ==
            LastError(LoopStatus(streams, mems, now, k), WakeupAny(streams[k].local, mems(k), now).value.events)
  {
  }

  /** A wakeup after which no table is hung is one that every table can make. */
  lemma WakeCanEnd(env: Env, mems: nat -> Memory, now: nat, streams: seq<Stream>)
    requires StreamsSized(streams) && AppActionSized(streams, WakeAll)
    requires !AnyHung(AppPerform(env, mems, now, streams, WakeAll))
    ensures CanWake(streams, mems, now)
  {
    hide AppPerform, WakeupAny;
    var r := AppPerform(env, mems, now, streams, WakeAll);
    forall i | 0 <= i < |streams| ensures WakeupAny(streams[i].local, mems(i), now).Some? {
      StepIsPointwise(env, mems, now, streams, WakeAll, r, i);
      HangIsSeen(env, mems(i), now, streams[i]);
    }
  }

  lemma HangIsSeen(env: Env, mem: Memory, now: nat, s: Stream)
    requires StreamSized(s) && !Perform(env, mem, now, s, Wake).hung
    ensures WakeupAny(s.local, mem, now).Some?
  {
    hide WakeupAny;
  }

  /** What table i does with a message, spelled out. */
  ghost predicate StepMeaning(env: Env, mem: Memory, now: nat, s: Stream, a: AppAction, i: nat)
    requires StreamSized(s)
    requires ActionFor(a, i).Some? ==> ActionSized(Size(s), SignatureLength(s), ActionFor(a, i).value)
  {
    TableStep(env, mem, now, s, ActionFor(a, i)) ==
    match a
    case WakeAll => Perform(env, mem, now, s, Wake)
    case StartTables(mask, okFor) => if Addressed(i, mask) then StartStream(s, okFor(i)) else s
    case StopTables(mask, okFor) => if Addressed(i, mask) then StopStream(s, okFor(i)) else s
    case JamTable(tableId, entryId, length, delay, address, ok) =>
      if i + 1 == tableId then JamDwell(env, s, entryId, length, delay, address, ok) else s
    case SignTable(tableId, signature, ok) => if i + 1 == tableId then SignStream(s, signature, ok) else s
    case UpdateTable(index, tbl, ok) => if i == index then LoadStream(env, s, tbl, ok) else s
  }

  lemma StepIs(env: Env, mem: Memory, now: nat, s: Stream, a: AppAction, i: nat)
    requires StreamSized(s) && !s.hung
    requires ActionFor(a, i).Some? ==> ActionSized(Size(s), SignatureLength(s), ActionFor(a, i).value)
    ensures StepMeaning(env, mem, now, s, a, i)
  {
    hide WakeStream, StartStream, StopStream, SignStream, LoadStream, JamDwell, Addressed;
  }

  class MdApp {
    const tables: seq<DwellTable>
    const buffers: seq<TableBuffer>

    ghost predicate Separate() {
      && 1 <= |tables| == |buffers| <= WIDTH
      && (forall i, j :: 0 <= i < j < |tables| ==>
            && tables[i] != tables[j]
            && buffers[i] != buffers[j]
            && tables[i].entry != tables[j].entry
            && tables[i].data != tables[j].data)
    }

    /** What one table, its buffer and its past are now. */
    ghost function StreamAt(i: nat): Stream
      requires i < |tables| && i < |buffers|
      reads tables[i], tables[i].entry, tables[i].data, buffers[i]
    {
      Stream(tables[i].View(), buffers[i].Contents(), tables[i].trace, false)
    }

    ghost predicate Valid()
      reads tables, buffers, set t | t in tables :: t.entry, set t | t in tables :: t.data
    {
      Separate() && forall i :: 0 <= i < |tables| ==> StreamSized(StreamAt(i))
    }

    /** Only table i changed. */
    twostate predicate OthersKept(i: nat)
      requires |tables| == |buffers|
      reads tables, buffers, set t | t in tables :: t.entry, set t | t in tables :: t.data
    {
      forall j :: 0 <= j < |tables| && j != i ==> StreamAt(j) == old(StreamAt(j))
    }

    /** Cleared control structures; every buffer holds the same initial table. */
    constructor (num: nat, size: nat, signatureLength: nat, tbl: LoadTable)
      requires 1 <= num <= WIDTH && 1 <= size <= MAX_TABLE_SIZE && 0 < signatureLength
      requires |tbl.entry| == size && |tbl.signature| == signatureLength
      ensures Valid() && |tables| == num
      ensures forall i :: 0 <= i < num ==> StreamAt(i) == Stream(Cleared(size, signatureLength), tbl, [], false)
    {
      ClearedOk(size, signatureLength, tbl);
      hide StreamSized, Cleared;
      var ts: seq<DwellTable>, bs: seq<TableBuffer> := [], [];
      while |ts| < num
        invariant |ts| == |bs| <= num
        invariant forall i :: 0 <= i < |ts| ==> fresh(ts[i]) && fresh(ts[i].entry) && fresh(ts[i].data)
        invariant forall i :: 0 <= i < |ts| ==> fresh(bs[i])
        invariant forall i, j :: 0 <= i < j < |ts| ==>
                    ts[i] != ts[j] && bs[i] != bs[j] && ts[i].entry != ts[j].entry && ts[i].data != ts[j].data
        invariant forall i :: 0 <= i < |ts| ==>
                    && ts[i].View() == Cleared(size, signatureLength)
                    && ts[i].trace == []
                    && bs[i].Contents() == tbl
        decreases num - |ts|
      {
        var t := new DwellTable(size, signatureLength);
        var b := new TableBuffer(tbl);
        ts, bs := ts + [t], bs + [b];
      }
      tables, buffers := ts, bs;
    }

    // ----- one table at a time

    method WakeTable(env: Env, i: nat, mem: Memory, now: nat, statusIn: int) returns (status: int)
      requires Valid() && i < |tables| && WakeupAny(StreamAt(i).local, mem, now).Some?
      modifies tables[i], tables[i].data
      ensures StreamAt(i) == Perform(env, mem, now, old(StreamAt(i)), Wake)
      ensures Valid() && OthersKept(i)
      ensures status == LastError(statusIn, WakeupAny(old(StreamAt(i)).local, mem, now).value.events)
    {
      hide WakeupAny;
      status := tables[i].ProcessWakeup(mem, now, statusIn);
    }

    method StartTable(i: nat, accessOk: bool) returns (success: bool)
      requires Valid() && i < |tables|
      modifies tables[i], buffers[i]
      ensures StreamAt(i) == StartStream(old(StreamAt(i)), accessOk)
      ensures Valid() && OthersKept(i)
      ensures success == accessOk
    {
      hide StreamSized;
      tables[i].enabled := ENABLED;
      tables[i].countdown := 1;
      tables[i].currentEntry := 0;
      tables[i].pktOffset := 0;
      success := buffers[i].UpdateEnabledField(ENABLED, accessOk);
      SwitchOk(old(StreamAt(i)), accessOk);
    }

    method StopTable(i: nat, accessOk: bool) returns (success: bool)
      requires Valid() && i < |tables|
      modifies tables[i], buffers[i]
      ensures StreamAt(i) == StopStream(old(StreamAt(i)), accessOk)
      ensures Valid() && OthersKept(i)
      ensures success == accessOk
    {
      hide StreamSized;
      tables[i].enabled := DISABLED;
      tables[i].countdown := 0;
      tables[i].currentEntry := 0;
      tables[i].pktOffset := 0;
      success := buffers[i].UpdateEnabledField(DISABLED, accessOk);
      SwitchOk(old(StreamAt(i)), accessOk);
    }

    /** The local entry, then the buffer, then - only if that worked - the summary. */
    method WriteEntry(i: nat, entryIndex: nat, e: ControlEntry, le: LoadEntry, accessOk: bool) returns (success: bool)
      requires Separate() && i < |tables|
      requires entryIndex < tables[i].entry.Length == |buffers[i].entry| <= MAX_TABLE_SIZE
      modifies tables[i], tables[i].entry, buffers[i]
      ensures StreamAt(i) == Jammed(old(StreamAt(i)), entryIndex, e, le, accessOk)
      ensures OthersKept(i)
      ensures success == accessOk
    {
      hide Summarised;
      tables[i].entry[entryIndex] := e;
      assert tables[i].entry[..] == old(tables[i].entry[..])[entryIndex := e];
      success := buffers[i].UpdateDwellEntry(entryIndex, le.length, le.delay, le.address, accessOk);
      if success {
        tables[i].UpdateDwellControlInfo();
      }
    }

    method JamEntry(i: nat, entryIndex: nat, e: ControlEntry, le: LoadEntry, accessOk: bool) returns (success: bool)
      requires Valid() && i < |tables| && entryIndex < tables[i].entry.Length
      modifies tables[i], tables[i].entry, buffers[i]
      ensures StreamAt(i) == Jammed(old(StreamAt(i)), entryIndex, e, le, accessOk)
      ensures Valid() && OthersKept(i)
      ensures success == accessOk
    {
      assert StreamSized(StreamAt(i));
      hide Jammed;
      success := WriteEntry(i, entryIndex, e, le, accessOk);
      JammedOk(old(StreamAt(i)), entryIndex, e, le, accessOk);
    }

    // ----- the handlers

    ghost function Streams(): (r: seq<Stream>)
      requires |tables| == |buffers|
      reads tables, buffers, set t | t in tables :: t.entry, set t | t in tables :: t.data
      ensures |r| == |tables|
      ensures forall i :: 0 <= i < |r| ==> r[i] == StreamAt(i)
    {
      seq(|tables|, i requires 0 <= i < |tables|
                      reads tables, buffers, set t | t in tables :: t.entry, set t | t in tables :: t.data
                      => StreamAt(i))
    }

    /** The tables' Enabled fields. */
    ghost function EnabledFlags(): (r: seq<u16>)
      reads tables
      ensures |r| == |tables|
    {
      seq(|tables|, i requires 0 <= i < |tables| reads tables => tables[i].enabled)
    }

    /** MD_DwellLoop: one wakeup for every table in turn. */
    method DwellLoop(env: Env, mems: nat -> Memory, now: nat) returns (status: int)
      requires Valid() && CanWake(Streams(), mems, now)
      modifies tables, set t | t in tables :: t.data
      ensures Valid()
      ensures forall i :: 0 <= i < |tables| ==>
                StreamAt(i) == Perform(env, mems(i), now, old(StreamAt(i)), Wake)
      ensures status == LoopStatus(old(Streams()), mems, now, |tables|)
    {
      hide Perform, WakeupAny, StreamAt, LastError, StreamSized, CanWake, LoopStatus;
      ghost var before := Streams();
      LoopStatusNext(before, mems, now, 0);
      status := SUCCESS;
      var tblIndex := 0;
      while tblIndex < |tables|
        invariant tblIndex <= |tables|
        invariant Valid()
        invariant forall i :: 0 <= i < tblIndex ==> StreamAt(i) == Perform(env, mems(i), now, before[i], Wake)
        invariant forall i :: tblIndex <= i < |tables| ==> StreamAt(i) == before[i]
        invariant status == LoopStatus(before, mems, now, tblIndex)
      {
        label step:
        LoopStatusNext(before, mems, now, tblIndex);
        status := WakeTable(env, tblIndex, mems(tblIndex), now, status);
        assert forall i :: 0 <= i < |tables| && i != tblIndex ==> StreamAt(i) == old@step(StreamAt(i));
        tblIndex := tblIndex + 1;
      }
    }

    /** MD_StartDwellCmd: restart every table in the mask; rejected if there is none. */
    method StartDwellCmd(mask: Word16, accessOk: seq<bool>) returns (accepted: bool, errorCount: nat)
      requires Valid() && |accessOk| == |tables|
      modifies tables, buffers
      ensures Valid()
      ensures forall i :: 0 <= i < |tables| ==>
                StreamAt(i) == if Addressed(i, mask) then StartStream(old(StreamAt(i)), accessOk[i])
                               else old(StreamAt(i))
      ensures accepted == AnyAddressed(mask, |tables|)
      ensures errorCount == Failures(mask, accessOk, |tables|)
      ensures EnabledFlags() == Switched(old(EnabledFlags()), StartMask(mask))
    {
      hide TableIsInMask, Switched, StreamSized;
      ghost var flags := EnabledFlags();
      accepted, errorCount := false, 0;
      var tableId := 1;
      while tableId <= |tables|
        invariant 1 <= tableId <= |tables| + 1
        invariant accepted == AnyAddressed(mask, tableId - 1)
      {
        if TableIsInMask(tableId, mask) {
          accepted := true;
        }
        tableId := tableId + 1;
      }
      if accepted {
        errorCount := StartTables(mask, accessOk);
      } else {
        NoneAddressed(mask, accessOk, |tables|);
      }
      assert forall i :: 0 <= i < |tables| ==> tables[i].enabled == StreamAt(i).local.setup.enabled;
      SwitchedIs(flags, EnabledFlags(), StartMask(mask));
    }

    method StartIfAddressed(i: nat, mask: Word16, accessOk: bool) returns (failed: bool)
      requires Valid() && i < |tables|
      modifies tables[i], buffers[i]
      ensures StreamAt(i) == if Addressed(i, mask) then StartStream(old(StreamAt(i)), accessOk) else old(StreamAt(i))
      ensures Valid() && OthersKept(i)
      ensures failed == (Addressed(i, mask) && !accessOk)
    {
      hide StreamSized, StartStream;
      failed := false;
      if TableIsInMask(i + 1, mask) {
        var success := StartTable(i, accessOk);
        failed := !success;
      }
    }

    method StopIfAddressed(i: nat, mask: Word16, accessOk: bool) returns (addressed: bool, failed: bool)
      requires Valid() && i < |tables|
      modifies tables[i], buffers[i]
      ensures StreamAt(i) == if Addressed(i, mask) then StopStream(old(StreamAt(i)), accessOk) else old(StreamAt(i))
      ensures Valid() && OthersKept(i)
      ensures addressed == Addressed(i, mask) && failed == (Addressed(i, mask) && !accessOk)
    {
      hide StreamSized, StopStream;
      addressed, failed := false, false;
      if TableIsInMask(i + 1, mask) {
        var success := StopTable(i, accessOk);
        addressed, failed := true, !success;
      }
    }

    method StartTables(mask: Word16, accessOk: seq<bool>) returns (errorCount: nat)
      requires Valid() && |accessOk| == |tables|
      modifies tables, buffers
      ensures Valid()
      ensures forall i :: 0 <= i < |tables| ==>
                StreamAt(i) == if Addressed(i, mask) then StartStream(old(StreamAt(i)), accessOk[i])
                               else old(StreamAt(i))
      ensures errorCount == Failures(mask, accessOk, |tables|)
    {
      hide Addressed, StartStream, StopStream, StreamSized, StreamAt;
      ghost var before := Streams();
      errorCount := 0;
      var tableId := 1;
      while tableId <= |tables|
        invariant 1 <= tableId <= |tables| + 1
        invariant Valid()
        invariant forall i :: 0 <= i < tableId - 1 ==>
                    StreamAt(i) == if Addressed(i, mask) then StartStream(before[i], accessOk[i]) else before[i]
        invariant forall i :: tableId - 1 <= i < |tables| ==> StreamAt(i) == before[i]
        invariant errorCount == Failures(mask, accessOk, tableId - 1)
      {
        label step:
        var failed := StartIfAddressed(tableId - 1, mask, accessOk[tableId - 1]);
        assert forall i :: 0 <= i < |tables| && i != tableId - 1 ==> StreamAt(i) == old@step(StreamAt(i));
        if failed {
          errorCount := errorCount + 1;
        }
        tableId := tableId + 1;
      }
    }

    /** MD_StopDwellCmd: stop every table in the mask; rejected if there is none. */
    method StopDwellCmd(mask: Word16, accessOk: seq<bool>) returns (accepted: bool, errorCount: nat)
      requires Valid() && |accessOk| == |tables|
      modifies tables, buffers
      ensures Valid()
      ensures forall i :: 0 <= i < |tables| ==>
                StreamAt(i) == if Addressed(i, mask) then StopStream(old(StreamAt(i)), accessOk[i])
                               else old(StreamAt(i))
      ensures accepted == AnyAddressed(mask, |tables|)
      ensures errorCount == Failures(mask, accessOk, |tables|)
      ensures EnabledFlags() == Switched(old(EnabledFlags()), StopMask(mask))
    {
      hide TableIsInMask, Switched, StreamSized;
      ghost var flags := EnabledFlags();
      accepted, errorCount := StopTables(mask, accessOk);
      assert forall i :: 0 <= i < |tables| ==> tables[i].enabled == StreamAt(i).local.setup.enabled;
      SwitchedIs(flags, EnabledFlags(), StopMask(mask));
    }

    method StopTables(mask: Word16, accessOk: seq<bool>) returns (accepted: bool, errorCount: nat)
      requires Valid() && |accessOk| == |tables|
      modifies tables, buffers
      ensures Valid()
      ensures forall i :: 0 <= i < |tables| ==>
                StreamAt(i) == if Addressed(i, mask) then StopStream(old(StreamAt(i)), accessOk[i])
                               else old(StreamAt(i))
      ensures accepted == AnyAddressed(mask, |tables|)
      ensures errorCount == Failures(mask, accessOk, |tables|)
    {
      hide Addressed, StartStream, StopStream, StreamSized, StreamAt;
      ghost var before := Streams();
      accepted, errorCount := false, 0;
      var tableId := 1;
      while tableId <= |tables|
        invariant 1 <= tableId <= |tables| + 1
        invariant Valid()
        invariant forall i :: 0 <= i < tableId - 1 ==>
                    StreamAt(i) == if Addressed(i, mask) then StopStream(before[i], accessOk[i]) else before[i]
        invariant forall i :: tableId - 1 <= i < |tables| ==> StreamAt(i) == before[i]
        invariant accepted == AnyAddressed(mask, tableId - 1)
        invariant errorCount == Failures(mask, accessOk, tableId - 1)
      {
        label step:
        var addressed, failed := StopIfAddressed(tableId - 1, mask, accessOk[tableId - 1]);
        assert forall i :: 0 <= i < |tables| && i != tableId - 1 ==> StreamAt(i) == old@step(StreamAt(i));
        if addressed {
          accepted := true;
        }
        if failed {
          errorCount := errorCount + 1;
        }
        tableId := tableId + 1;
      }
    }

    /** The checks and the jam of a command whose table id is valid. */
    method JamTable(env: Env, i: nat, entryId: u16, fieldLength: u16, dwellDelay: u16, address: SymAddr, accessOk: bool)
      returns (accepted: bool)
      requires Valid() && i < |tables| && tables[i].entry.Length == |buffers[i].entry| <= MAX_TABLE_SIZE
      modifies tables[i], tables[i].entry, buffers[i]
      ensures StreamAt(i) == JamDwell(env, old(StreamAt(i)), entryId, fieldLength, dwellDelay, address, accessOk)
      ensures Valid() && OthersKept(i)
      ensures accepted <==>
                && ValidId(entryId, tables[i].entry.Length)
                && JamEntries(env, fieldLength, dwellDelay, address).Some?
                && accessOk
    {
      hide StreamSized, Jammed;
      accepted := ValidId(entryId, tables[i].entry.Length);
      if accepted {
        var entryIndex := entryId - 1;
        if fieldLength == 0 {
          accepted := JamEntry(i, entryIndex, Entry(0, 0, 0), Entry(0, 0, NULL_ADDRESS), accessOk);
        } else {
          var resolved := ResolveSymAddr(env, address);
          if resolved == None {
            accepted := false;
          } else if !FieldLength(fieldLength) {
            accepted := false;
          } else if !env.validRange(resolved.value, fieldLength) {
            accepted := false;
          } else if fieldLength == 4 && !Verify32Aligned(resolved.value, fieldLength) {
            accepted := false;
          } else if fieldLength == 2 && !Verify16Aligned(resolved.value, fieldLength) {
            accepted := false;
          }
          if accepted {
            accepted := JamEntry(i, entryIndex, Entry(fieldLength, dwellDelay, resolved.value),
                                 Entry(fieldLength, dwellDelay, address), accessOk);
          }
        }
      }
    }

    /** MD_JamDwellCmd. */
    method JamDwellCmd(env: Env, tableId: u16, entryId: u16, fieldLength: u16, dwellDelay: u16, address: SymAddr,
                       accessOk: bool)
      returns (accepted: bool)
      requires Valid()
      modifies tables, buffers, set t | t in tables :: t.entry
      ensures Valid()
      ensures forall i :: 0 <= i < |tables| ==>
                StreamAt(i) == if i + 1 == tableId then
                                 JamDwell(env, old(StreamAt(i)), entryId, fieldLength, dwellDelay, address, accessOk)
                               else old(StreamAt(i))
      ensures accepted <==>
                && ValidId(tableId, |tables|)
                && ValidId(entryId, tables[tableId - 1].entry.Length)
                && JamEntries(env, fieldLength, dwellDelay, address).Some?
                && accessOk
    {
      hide JamDwell, JamEntries;
      accepted := ValidId(tableId, |tables|);
      if accepted {
        assert StreamSized(StreamAt(tableId - 1));
        accepted := JamTable(env, tableId - 1, entryId, fieldLength, dwellDelay, address, accessOk);
      }
    }

    /** MD_SetSignatureCmd. */
    method SetSignatureCmd(tableId: u16, signature: string, accessOk: bool) returns (accepted: bool)
      requires Valid()
      requires ValidId(tableId, |tables|) ==> |signature| == SignatureLength(StreamAt(tableId - 1))
      modifies tables, buffers
      ensures Valid()
      ensures forall i :: 0 <= i < |tables| ==>
                StreamAt(i) == if i + 1 == tableId then SignStream(old(StreamAt(i)), signature, accessOk)
                               else old(StreamAt(i))
      ensures accepted <==> HasNul(signature) && ValidId(tableId, |tables|) && accessOk
    {
      accepted := false;
      var stringLength := 0;
      while stringLength < |signature|
        invariant stringLength <= |signature|
        invariant forall i :: 0 <= i < stringLength ==> signature[i] != '\0'
      {
        if signature[stringLength] == '\0' {
          break;
        }
        stringLength := stringLength + 1;
      }
      if stringLength < |signature| && ValidId(tableId, |tables|) {
        accepted := SignTable(tableId - 1, signature, accessOk);
      }
    }

    method SignTable(i: nat, signature: string, accessOk: bool) returns (success: bool)
      requires Valid() && i < |tables| && HasNul(signature) && |signature| == SignatureLength(StreamAt(i))
      modifies tables[i], buffers[i]
      ensures StreamAt(i) == SignStream(old(StreamAt(i)), signature, accessOk)
      ensures Valid() && OthersKept(i)
      ensures success == accessOk
    {
      hide StreamSized;
      tables[i].signature := CopySignature(signature);
      success := buffers[i].UpdateSignature(signature, accessOk);
      SignOk(old(StreamAt(i)), signature, accessOk);
    }

    /** Table Services puts a load in place; if its address is obtained it is copied in and an
        enabled table is started. */
    method ReplaceTable(env: Env, i: nat, tbl: LoadTable, accessOk: bool)
      requires Separate() && i < |tables|
      requires |tbl.entry| == tables[i].entry.Length <= MAX_TABLE_SIZE
      modifies tables[i], tables[i].entry, buffers[i]
      ensures StreamAt(i) == LoadStream(env, old(StreamAt(i)), tbl, accessOk)
      ensures OthersKept(i)
    {
      hide CopyOf;
      buffers[i].Replace(tbl);
      if accessOk {
        tables[i].CopyUpdatedTbl(env, tbl);
        if tbl.enabled == ENABLED {
          tables[i].StartDwellStream();
        }
      }
    }

    /** The update branch of MD_ManageDwellTable. */
    method UpdateTable(env: Env, i: nat, tbl: LoadTable, accessOk: bool)
      requires Valid() && i < |tables|
      requires |tbl.entry| == Size(StreamAt(i)) && |tbl.signature| == SignatureLength(StreamAt(i))
      modifies tables[i], tables[i].entry, buffers[i]
      ensures StreamAt(i) == LoadStream(env, old(StreamAt(i)), tbl, accessOk)
      ensures Valid() && OthersKept(i)
    {
      assert StreamSized(StreamAt(i));
      hide LoadStream;
      ReplaceTable(env, i, tbl, accessOk);
      LoadOk(env, old(StreamAt(i)), tbl, accessOk);
    }

    /** One table of MD_InitTableServices, once it is registered. If Table Services has recovered it and
        its address is obtained, validate it, copy it in and start it if it is enabled. Otherwise load
        the initial file - None if that fails - and leave the table disabled. */
    method InitTable(env: Env, i: nat, accessOk: bool, file: Option<LoadTable>) returns (recovered: bool, valid: bool)
      requires Valid() && i < |tables|
      requires file.Some? ==>
                 |file.value.entry| == Size(StreamAt(i)) && |file.value.signature| == SignatureLength(StreamAt(i))
      modifies tables[i], tables[i].entry, buffers[i]
      ensures StreamSized(old(StreamAt(i)))
      ensures recovered <==> accessOk && Acceptable(env, old(StreamAt(i)).buffer)
      ensures valid <==> recovered || file.Some?
      ensures StreamAt(i) == Initialised(env, old(StreamAt(i)), accessOk, file)
      ensures Valid() && OthersKept(i)
    {
      hide Initialised, Loaded, LoadedInitially, Acceptable;
      assert StreamSized(StreamAt(i));
      recovered := false;
      if accessOk {
        recovered := RestoreTable(env, i);
      }
      valid := true;
      if !recovered {
        valid := LoadInitial(i, file);
      }
      InitialisedIs(env, old(StreamAt(i)), accessOk, file);
    }

    /** Validate what Table Services recovered, and take it over if it is valid. */
    method RestoreTable(env: Env, i: nat) returns (recovered: bool)
      requires Separate() && i < |tables|
      requires |buffers[i].entry| == tables[i].entry.Length <= MAX_TABLE_SIZE
      modifies tables[i], tables[i].entry
      ensures recovered <==> Acceptable(env, old(StreamAt(i)).buffer)
      ensures StreamAt(i) ==
              if recovered then old(StreamAt(i)).(local := Loaded(env, old(StreamAt(i)).local, old(StreamAt(i)).buffer))
              else old(StreamAt(i))
      ensures OthersKept(i)
    {
      hide CopyOf, Acceptable, Summarised, NoticeDue, ValidTableEntry, PrefixGood;
      var tbl := LoadTable(buffers[i].enabled, buffers[i].signature, buffers[i].entry);
      var status, errorEntry, zeroRate := TableValidationFunc(env, tbl);
      recovered := status == Status.Valid;
      SummarisedTwice(env, tbl);
      if recovered {
        tables[i].CopyUpdatedTbl(env, tbl);
        if tbl.enabled == ENABLED {
          tables[i].StartDwellStream();
        }
        tables[i].UpdateDwellControlInfo();
      }
    }

    method LoadInitial(i: nat, file: Option<LoadTable>) returns (valid: bool)
      requires Separate() && i < |tables| && tables[i].entry.Length <= MAX_TABLE_SIZE
      modifies tables[i], buffers[i]
      ensures valid == file.Some?
      ensures StreamAt(i) == LoadedInitially(old(StreamAt(i)), file)
      ensures OthersKept(i)
    {
      hide Summarised;
      valid := file.Some?;
      if valid {
        buffers[i].Replace(file.value);
      }
      tables[i].enabled := DISABLED;
      if valid {
        tables[i].UpdateDwellControlInfo();
      }
    }

    // ----- the messages of the pipe

    /** Every handler does what the message means to each table alone. */
    method Dispatch(env: Env, mems: nat -> Memory, now: nat, a: AppAction)
      requires Valid() && AppActionSized(Streams(), a)
      requires a.WakeAll? ==> CanWake(Streams(), mems, now)
      modifies tables, buffers, set t | t in tables :: t.entry, set t | t in tables :: t.data
      ensures forall i :: 0 <= i < |tables| ==>
                && StreamSized(old(StreamAt(i)))
                && StreamAt(i) == TableStep(env, mems(i), now, old(StreamAt(i)), ActionFor(a, i))
      ensures Valid()
    {
      hide Perform, WakeStream, StartStream, StopStream, SignStream, LoadStream, JamDwell, Addressed, StreamAt,
        StreamSized, CanWake, Switched, TableStep;
      StreamsAreSized();
      NotHung();
      ghost var before := Streams();
      forall i: nat | i < |tables| ensures StepMeaning(env, mems(i), now, before[i], a, i) {
        StepIs(env, mems(i), now, before[i], a, i);
      }
      match a {
        case WakeAll =>
          var status := DwellLoop(env, mems, now);
        case StartTables(mask, okFor) =>
          var accepted, errorCount := StartDwellCmd(mask, seq(|tables|, i requires 0 <= i < |tables| => okFor(i)));
        case StopTables(mask, okFor) =>
          var accepted, errorCount := StopDwellCmd(mask, seq(|tables|, i requires 0 <= i < |tables| => okFor(i)));
        case JamTable(tableId, entryId, length, delay, address, ok) =>
          var accepted := JamDwellCmd(env, tableId, entryId, length, delay, address, ok);
        case SignTable(tableId, signature, ok) =>
          var accepted := SetSignatureCmd(tableId, signature, ok);
        case UpdateTable(index, tbl, ok) =>
          if index < |tables| {
            UpdateTable(env, index, tbl, ok);
          }
      }
    }

    /** MD_ProcessCommandPacket: one message, refining the message's meaning for the whole application. */
    method ProcessMessage(env: Env, mems: nat -> Memory, now: nat, a: AppAction)
      requires Valid() && AppActionSized(Streams(), a)
      requires a.WakeAll? ==> CanWake(Streams(), mems, now)
      modifies tables, buffers, set t | t in tables :: t.entry, set t | t in tables :: t.data
      ensures StreamsSized(old(Streams()))
      ensures Streams() == AppPerform(env, mems, now, old(Streams()), a)
      ensures Valid()
    {
      hide TableStep, StreamSized, AppActionSized, CanWake, StreamAt, AppPerform;
      ghost var before := Streams();
      StreamsAreSized();
      NotHung();
      Dispatch(env, mems, now, a);
      NotHung();
      PointwiseIsStep(env, mems, now, before, a, Streams());
    }

    lemma StreamsAreSized()
      requires Valid()
      ensures StreamsSized(Streams())
    {
    }

    lemma NotHung()
      requires |tables| == |buffers|
      ensures !AnyHung(Streams())
    {
    }

    /** The loop over the pipe: a whole run in which nothing hangs refines the run of the specification,
        so what is proved about its tables one by one holds of the object. */
    method ProcessMessages(env: Env, mems: nat -> Memory, from: nat, acts: seq<AppAction>)
      requires Valid() && AppActionsSized(Streams(), acts)
      requires StreamsSized(Streams()) && !AnyHung(AppExec(env, mems, from, Streams(), acts))
      modifies tables, buffers, set t | t in tables :: t.entry, set t | t in tables :: t.data
      ensures Valid() && StreamsSized(old(Streams()))
      ensures Streams() == AppExec(env, mems, from, old(Streams()), acts)
    {
      hide StreamSized, AppActionSized, CanWake, StreamAt, AppPerform, AnyHung;
      ghost var before := Streams();
      assert acts[..0] == [];
      var k := 0;
      while k < |acts|
        invariant k <= |acts| && Valid()
        invariant AppActionsSized(before, acts[..k])
        invariant Streams() == AppExec(env, mems, from, before, acts[..k])
      {
        AppNext(env, mems, from, before, acts, k, Streams());
        NeverHung(env, mems, from, before, acts, k + 1);
        if acts[k].WakeAll? {
          WakeCanEnd(env, mems, from + WakeCount(acts[..k + 1]), Streams());
        }
        ProcessMessage(env, mems, from + WakeCount(acts[..k + 1]), acts[k]);
        k := k + 1;
      }
      assert acts[..|acts|] == acts;
    }

    // ----- telemetry

    /** The DwellEnabledMask of MD_HkStatus. */
    method DwellEnabledMask() returns (mask: Word16)
      ensures mask == EnableBits(EnabledFlags(), |tables|)
    {
      mask := ToWord(0);
      var tblIndex := 0;
      while tblIndex < |tables|
        invariant tblIndex <= |tables|
        invariant mask == EnableBits(EnabledFlags(), tblIndex)
      {
        mask := Or(mask, ShiftLeft(ToWord(tables[tblIndex].enabled), tblIndex));
        tblIndex := tblIndex + 1;
      }
    }
  }
}
