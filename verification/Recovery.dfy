/** The table that Table Services keeps backs up the local structure: what a processor reset
    recovers from it is the configuration that was running. */
module Recovery {
  import opened Types
  import opened Summary
  import opened Engine
  import opened AnyTable
  import opened Signatures
  import opened Schedule
  import opened Validation
  import opened Commands
  import opened Runs

  /** Equal but for the address of null entries, which nothing reads. */
  ghost predicate SameConfig(a: Setup, b: Setup) {
    && a.enabled == b.enabled
    && a.addrCount == b.addrCount
    && a.rate == b.rate
    && a.dataSize == b.dataSize
    && a.signature == b.signature
    && SameEntries(a.entry, b.entry)
  }

  ghost predicate SameEntries(a: seq<ControlEntry>, b: seq<ControlEntry>) {
    && |a| == |b|
    && SameTiming(a, b, |a|)
    && forall i :: 0 <= i < |a| && a[i].length != 0 ==> a[i].address == b[i].address
  }

  /** The buffer meets the load contract and copying it would give the local configuration. */
  ghost predicate Backed(env: Env, s: Stream) {
    && |s.buffer.entry| <= MAX_TABLE_SIZE
    && GoodLoad(env, s.buffer)
    && SameConfig(s.local.setup, CopyOf(env, s.buffer))
  }

  lemma SummarisedAlike(a: Setup, b: Setup)
    requires |a.entry| == |b.entry| <= MAX_TABLE_SIZE
    requires a.enabled == b.enabled && a.signature == b.signature
    requires SameEntries(a.entry, b.entry)
    ensures SameConfig(Summarised(a), Summarised(b))
  {
    ActiveCountAgrees(a.entry, b.entry);
    SumsAgree(a.entry, b.entry, ActiveCount(a.entry));
  }

  /** A non-null good entry is copied with its own resolved address, whatever lies around it. */
  lemma CopiedAddress(env: Env, entry: seq<LoadEntry>, i: nat)
    requires i < |entry| && GoodEntry(env, entry[i]) && entry[i].length != 0
    ensures Some(CopyEntry(env, entry, i).address) == ResolveSymAddr(env, entry[i].address)
  {
  }

  lemma JamEntriesMatch(env: Env, length: u16, delay: u16, address: SymAddr, e: ControlEntry, le: LoadEntry)
    requires JamEntries(env, length, delay, address) == Some((e, le))
    ensures e.length == le.length && e.delay == le.delay
    ensures GoodEntry(env, le)
    ensures ResolveSymAddr(env, le.address) == Some(e.address)
  {
  }

  lemma JammedBacked(env: Env, s: Stream, slot: nat, e: ControlEntry, le: LoadEntry)
    requires StreamOk(s) && Backed(env, s) && slot < Size(s)
    requires e.length == le.length && e.delay == le.delay
    requires GoodEntry(env, le) && ResolveSymAddr(env, le.address) == Some(e.address)
    ensures Backed(env, Jammed(s, slot, e, le, true))
  {
    var before, after := s.buffer.entry, s.buffer.entry[slot := le];
    var entry := s.local.setup.entry[slot := e];
    var copy := CopyEntries(env, after);
    forall i | 0 <= i < |entry|
      ensures entry[i].length == copy[i].length && entry[i].delay == copy[i].delay
      ensures entry[i].length != 0 ==> entry[i].address == copy[i].address
    {
      if i != slot {
        assert s.local.setup.entry[i].length == CopyEntry(env, before, i).length;
        assert GoodEntry(env, after[i]);
        if entry[i].length != 0 {
          CopiedAddress(env, before, i);
          CopiedAddress(env, after, i);
        }
      }
    }
    var tbl := s.buffer.(entry := after);
    SummarisedAlike(s.local.setup.(entry := entry),
                    Setup(tbl.enabled % U16_SPAN, 0, 0, 0, copy, CopySignature(tbl.signature)));
    assert PrefixGood(env, after, |after|);
  }

  lemma SwitchBacked(env: Env, s: Stream)
    requires StreamOk(s) && Backed(env, s)
    ensures Backed(env, StartStream(s, true)) && Backed(env, StopStream(s, true))
  {
  }

  lemma SignBacked(env: Env, s: Stream, signature: string)
    requires StreamOk(s) && Backed(env, s)
    ensures Backed(env, SignStream(s, signature, true))
  {
    CopySignatureIdempotent(signature);
  }

  lemma LoadBacked(env: Env, s: Stream, tbl: LoadTable)
    requires |tbl.entry| <= MAX_TABLE_SIZE && GoodLoad(env, tbl)
    ensures Backed(env, LoadStream(env, s, tbl, true))
  {
  }

  lemma JamBacked(env: Env, s: Stream, entryId: u16, length: u16, delay: u16, address: SymAddr)
    requires StreamOk(s) && Backed(env, s)
    ensures Backed(env, JamDwell(env, s, entryId, length, delay, address, true))
  {
    hide Backed, Jammed;
    var entries := JamEntries(env, length, delay, address);
    if ValidId(entryId, |s.buffer.entry|) && entries.Some? {
      var (e, le) := entries.value;
      JamEntriesMatch(env, length, delay, address, e, le);
      JammedBacked(env, s, entryId - 1, e, le);
    }
  }

  lemma WakeBacked(env: Env, s: Stream, cursor: Cursor, trace: seq<Event>, hung: bool)
    requires Backed(env, s)
    ensures Backed(env, s.(local := s.local.(cursor := cursor), trace := trace, hung := hung))
  {
  }

  lemma PerformBacked(env: Env, mem: Memory, now: nat, s: Stream, a: Action)
    requires StreamOk(s) && ActionOk(env, Size(s), SignatureLength(s), a)
    requires Backed(env, s) && AccessOk(a)
    ensures Backed(env, Perform(env, mem, now, s, a))
  {
    hide Wakeup, Backed, StartStream, StopStream, SignStream, LoadStream, JamDwell;
    match a {
      case Wake =>
        var r := Perform(env, mem, now, s, a);
        WakeBacked(env, s, r.local.cursor, r.trace, r.hung);
      case Start(_) => SwitchBacked(env, s);
      case Stop(_) => SwitchBacked(env, s);
      case Jam(entryId, length, delay, address, _) => JamBacked(env, s, entryId, length, delay, address);
      case SetSignature(signature, _) => SignBacked(env, s, signature);
      case Load(tbl, _) => LoadBacked(env, s, tbl);
    }
  }

  /** While every buffer access succeeds, whatever is started, stopped, jammed, renamed or loaded,
      the buffer stays valid and stays the running configuration. */
  lemma {:induction false} RunIsBacked(env: Env, mem: Memory, from: nat, s: Stream, acts: seq<Action>)
    requires StreamOk(s) && ActionsOk(env, Size(s), SignatureLength(s), acts)
    requires Backed(env, s) && AllAccessOk(acts)
    ensures Backed(env, Exec(env, mem, from, s, acts))
    decreases |acts|
  {
    hide Perform, Backed;
    if acts != [] {
      var front := acts[..|acts| - 1];
      RunIsBacked(env, mem, from, s, front);
      PerformBacked(env, mem, from + Wakes(acts), Exec(env, mem, from, s, front), acts[|acts| - 1]);
    }
  }

  // ----- recovery after a reset

  /** The recovery branch of initialisation: a recovered table that validates is copied in and,
      if enabled, started; t is the local structure as initialisation cleared it. */
  ghost function Recovered(env: Env, t: Table, buffer: LoadTable): Option<Table>
    requires |buffer.entry| <= MAX_TABLE_SIZE
  {
    if Acceptable(env, buffer) then Some(Loaded(env, t, buffer)) else None
  }

  /** The local structure of a table that could not be recovered. */
  function Unrecovered(t: Table): Table
    requires |t.setup.entry| <= MAX_TABLE_SIZE
  {
    Table(Summarised(t.setup.(enabled := DISABLED)), t.cursor)
  }

  /** A table with nothing to recover: the initial file's contents go to the buffer - unless that load
      fails - but not to the local structure, which is disabled. */
  function LoadedInitially(s: Stream, file: Option<LoadTable>): Stream
    requires Size(s) <= MAX_TABLE_SIZE
  {
    match file
    case Some(tbl) => s.(local := Unrecovered(s.local), buffer := tbl)
    case None => s.(local := s.local.(setup := s.local.setup.(enabled := DISABLED)))
  }

  /** A table after initialisation; accessOk says that something was recovered and its address obtained. */
  ghost function Initialised(env: Env, s: Stream, accessOk: bool, file: Option<LoadTable>): Stream
    requires |s.buffer.entry| == Size(s) <= MAX_TABLE_SIZE
  {
    if !accessOk then LoadedInitially(s, file)
    else
      match Recovered(env, s.local, s.buffer)
      case Some(t) => s.(local := t)
      case None => LoadedInitially(s, file)
  }

  /** Recovered or not, every array keeps its size. */
  lemma InitialisedIs(env: Env, s: Stream, accessOk: bool, file: Option<LoadTable>)
    requires StreamSized(s)
    requires file.Some? ==> |file.value.entry| == Size(s) && |file.value.signature| == SignatureLength(s)
    ensures StreamSized(Initialised(env, s, accessOk, file))
    ensures Initialised(env, s, accessOk, file) ==
            if accessOk && Acceptable(env, s.buffer) then s.(local := Loaded(env, s.local, s.buffer))
            else LoadedInitially(s, file)
  {
    LoadOk(env, s, s.buffer, true);
  }

  /** A table that is not recovered is left disabled, with its entries, signature, cursor and past as they
      were; the initial file's contents are in the buffer if it loaded, which is otherwise as it was. */
  lemma NotRecovered(env: Env, s: Stream, accessOk: bool, file: Option<LoadTable>)
    requires StreamSized(s) && !(accessOk && Acceptable(env, s.buffer))
    ensures
      var r := Initialised(env, s, accessOk, file);
      && r.local.setup.enabled == DISABLED
      && r.local.setup.entry == s.local.setup.entry && r.local.setup.signature == s.local.setup.signature
      && r.local.cursor == s.local.cursor && r.trace == s.trace && r.hung == s.hung
      && r.buffer == (match file case Some(tbl) => tbl case None => s.buffer)
      && (file.Some? ==> Summarises(r.local.setup))
      && (file.None? ==> r.local.setup == s.local.setup.(enabled := DISABLED))
  {
    hide Summarised, Acceptable, Summarises;
    SummaryIsRight(s.local.setup.(enabled := DISABLED));
  }

  /** A recovered one is what a load of the buffer's contents gives. */
  lemma RecoveredIsLoaded(env: Env, mem: Memory, now: nat, s: Stream, file: Option<LoadTable>)
    requires StreamSized(s) && !s.hung && Acceptable(env, s.buffer)
    ensures Initialised(env, s, true, file) == Perform(env, mem, now, s, Load(s.buffer, true))
  {
    hide Acceptable, CopyOf;
  }

  lemma SummarisedTwice(env: Env, tbl: LoadTable)
    requires |tbl.entry| <= MAX_TABLE_SIZE
    ensures Summarised(CopyOf(env, tbl)) == CopyOf(env, tbl)
  {
  }

  /** Round trip: run, reset, recover. The recovered table is accepted, has the configuration that
      was running, and if it was enabled is at its first entry with the next wakeup due. */
  lemma RecoveryRestores(env: Env, mem: Memory, from: nat, s: Stream, acts: seq<Action>, t: Table)
    requires StreamOk(s) && ActionsOk(env, Size(s), SignatureLength(s), acts)
    requires Backed(env, s) && AllAccessOk(acts)
    ensures
      var r := Exec(env, mem, from, s, acts);
      && |r.buffer.entry| <= MAX_TABLE_SIZE
      && var recovered := Recovered(env, t, r.buffer);
      && recovered.Some?
      && SameConfig(r.local.setup, recovered.value.setup)
      && (r.local.setup.enabled == ENABLED ==> recovered.value.cursor == Restarted(t.cursor, 1))
      && (r.local.setup.enabled != ENABLED ==> recovered.value.cursor == t.cursor)
  {
    hide Exec;
    RunIsBacked(env, mem, from, s, acts);
  }

  // ----- the same configuration is the same behaviour

  lemma PassAlike(a: Setup, b: Setup, c: Cursor, mem: Memory, now: nat)
    requires SetupOk(a) && SetupOk(b) && SameConfig(a, b) && Coherent(a)
    requires CursorOk(|a.entry|, c) && c.currentEntry < a.addrCount
    ensures Pass(a, c, mem, now) == Pass(b, c, mem, now)
  {
    var k := c.currentEntry;
    assert a.entry[k] == b.entry[k];
    assert FieldLength(a.entry[k].length);
    assert CodeFor(a, mem, k, now) == CodeFor(b, mem, k, now);
    assert Store(a, mem, c.data, c.pktOffset, k, now) == Store(b, mem, c.data, c.pktOffset, k, now);
  }

  lemma {:induction false} DrainAlike(a: Setup, b: Setup, c: Cursor, mem: Memory, now: nat)
    requires SetupOk(a) && SetupOk(b) && SameConfig(a, b) && Coherent(a)
    requires CursorOk(|a.entry|, c) && c.currentEntry < a.addrCount
    requires HasDelay(a) && HasDelay(b)
    ensures Drain(a, c, mem, now) == Drain(b, c, mem, now)
    decreases if c.countdown == 0 then Remaining(a, c) else 0
  {
    hide Pass;
    if c.countdown == 0 {
      var p := Pass(a, c, mem, now);
      PassAlike(a, b, c, mem, now);
      DrainFromFront(a, c, mem, now, p);
      DrainAlike(a, b, p.cursor, mem, now);
    }
  }

  lemma HasDelayAlike(a: Setup, b: Setup)
    requires SetupOk(a) && SetupOk(b) && SameConfig(a, b) && HasDelay(a)
    ensures HasDelay(b)
  {
    var j :| 0 <= j < a.addrCount && a.entry[j].delay > 0;
    assert b.entry[j].delay > 0;
  }

  /** From one cursor, two tables of the same configuration do the same on every wakeup: the
      recovered table samples and sends what the lost one would have. */
  lemma {:induction false} SameConfigRunsAlike(a: Setup, b: Setup, c: Cursor, mem: Memory, from: nat, w: nat)
    requires Runnable(a) && SetupOk(b) && SameConfig(a, b) && Coherent(a)
    requires CursorOk(|a.entry|, c)
    ensures Runnable(b)
    ensures Run(a, c, mem, from, w) == Run(b, c, mem, from, w)
    decreases w
  {
    hide Drain, Pass;
    HasDelayAlike(a, b);
    if w > 0 {
      SameConfigRunsAlike(a, b, c, mem, from, w - 1);
      var p := Run(a, c, mem, from, w - 1).cursor;
      if p.currentEntry < a.addrCount {
        DrainAlike(a, b, Ticked(p), mem, from + w);
      } else {
        assert a.entry[a.addrCount - 1].delay == b.entry[a.addrCount - 1].delay;
      }
    }
  }

  // ----- the addresses of null entries

  ghost predicate ExactCopy(env: Env, s: Stream) {
    s.local.setup.entry == CopyEntries(env, s.buffer.entry)
  }

  /** A changed entry shows in the carried address up to the next entry that resolves. */
  lemma {:induction false} CarryAfterJam(env: Env, entry: seq<LoadEntry>, slot: nat, le: LoadEntry, k: nat)
    requires slot < k <= |entry|
    requires ResolveSymAddr(env, le.address).Some?
    ensures
      var changed := entry[slot := le];
      if exists j :: slot < j < k && ResolveSymAddr(env, entry[j].address).Some? then
        Carry(env, changed, k) == Carry(env, entry, k)
      else
        && Carry(env, changed, k) == ResolveSymAddr(env, le.address).value
        && Carry(env, entry, k) == Carry(env, entry, slot + 1)
    decreases k
  {
    if k > slot + 1 {
      CarryAfterJam(env, entry, slot, le, k - 1);
    }
  }

  lemma {:induction false} CarryBelowJam(env: Env, entry: seq<LoadEntry>, slot: nat, le: LoadEntry, k: nat)
    requires k <= slot < |entry|
    ensures Carry(env, entry[slot := le], k) == Carry(env, entry, k)
  {
    if k > 0 {
      CarryBelowJam(env, entry, slot, le, k - 1);
    }
  }

  /** Whether a Jam keeps even the null entries' addresses equal to what a copy would give: it does
      if and only if it jams the last entry, or the entry behind it resolves, or the address stays. */
  lemma JamExactIff(env: Env, s: Stream, slot: nat, e: ControlEntry, le: LoadEntry)
    requires StreamSized(s) && ExactCopy(env, s) && slot < Size(s)
    requires e.length == le.length && e.delay == le.delay
    requires ResolveSymAddr(env, le.address) == Some(e.address)
    ensures ExactCopy(env, Jammed(s, slot, e, le, true)) <==>
            || slot + 1 == Size(s)
            || ResolveSymAddr(env, s.buffer.entry[slot + 1].address).Some?
            || e.address == s.local.setup.entry[slot].address
  {
    var before, after := s.buffer.entry, s.buffer.entry[slot := le];
    var entry := s.local.setup.entry[slot := e];
    var copy := CopyEntries(env, after);
    var r := Jammed(s, slot, e, le, true);
    assert r.local.setup.entry == entry && r.buffer.entry == after;
    forall i | 0 <= i < |entry|
      ensures i < slot ==> entry[i] == copy[i]
      ensures i == slot ==> entry[i] == copy[i]
      ensures i > slot ==>
                (entry[i] == copy[i] <==>
                 || (exists j :: slot < j < i + 1 && ResolveSymAddr(env, before[j].address).Some?)
                 || e.address == s.local.setup.entry[slot].address)
    {
      assert s.local.setup.entry[i] == CopyEntry(env, before, i);
      if i < slot {
        CarryBelowJam(env, before, slot, le, i + 1);
      } else if i > slot {
        CarryAfterJam(env, before, slot, le, i + 1);
        assert s.local.setup.entry[slot] == CopyEntry(env, before, slot);
      }
    }
    if slot + 1 < Size(s) {
      assert (exists j :: slot < j < slot + 2 && ResolveSymAddr(env, before[j].address).Some?) <==>
             ResolveSymAddr(env, before[slot + 1].address).Some?;
      if ResolveSymAddr(env, before[slot + 1].address).Some? {
        forall i | slot < i < |entry| ensures entry[i] == copy[i] {
          assert ResolveSymAddr(env, before[slot + 1].address).Some?;
        }
      } else if e.address != s.local.setup.entry[slot].address {
        assert entry[slot + 1] != copy[slot + 1];
      }
    }
    if slot + 1 == Size(s) || ResolveSymAddr(env, before[slot + 1].address).Some? ||
       e.address == s.local.setup.entry[slot].address {
      assert entry == copy;
    }
  }

  /** What keeps every resolved address equal to what a copy of the buffer would give. */
  predicate KeepsExact(env: Env, s: Stream, a: Action)
    requires Size(s) == |s.buffer.entry|
  {
    match a
    case Wake => true
    case Start(_) => true
    case Stop(_) => true
    case SetSignature(_, _) => true
    case Load(tbl, ok) => ok || s.local.setup.entry == CopyEntries(env, tbl.entry)
    case Jam(entryId, length, delay, address, ok) =>
      ValidId(entryId, Size(s)) && JamEntries(env, length, delay, address).Some? ==>
        var e, slot := JamEntries(env, length, delay, address).value.0, entryId - 1;
        if ok then
          || slot + 1 == Size(s)
          || ResolveSymAddr(env, s.buffer.entry[slot + 1].address).Some?
          || e.address == s.local.setup.entry[slot].address
        else e == s.local.setup.entry[slot]
  }

  lemma JamCommandExactIff(env: Env, s: Stream, a: Action)
    requires StreamSized(s) && a.Jam? && ExactCopy(env, s)
    ensures ExactCopy(env, JamDwell(env, s, a.entryId, a.length, a.delay, a.address, a.ok)) <==> KeepsExact(env, s, a)
  {
    hide CopyEntries;
    var entries := JamEntries(env, a.length, a.delay, a.address);
    if ValidId(a.entryId, Size(s)) && entries.Some? {
      var (e, le) := entries.value;
      JamEntriesMatch(env, a.length, a.delay, a.address, e, le);
      if a.ok {
        JamExactIff(env, s, a.entryId - 1, e, le);
      } else {
        assert s.local.setup.entry[a.entryId - 1 := e][a.entryId - 1] == e;
      }
    }
  }

  lemma PerformExactIff(env: Env, mem: Memory, now: nat, s: Stream, a: Action)
    requires StreamSized(s) && ActionSized(Size(s), SignatureLength(s), a) && ExactCopy(env, s)
    ensures ExactCopy(env, Perform(env, mem, now, s, a)) <==> s.hung || KeepsExact(env, s, a)
  {
    hide WakeupAny, Woken, JamDwell, CopyEntries;
    if a.Jam? {
      JamCommandExactIff(env, s, a);
    }
  }

  lemma StepExactIff(env: Env, mem: Memory, from: nat, s: Stream, acts: seq<Action>, k: nat)
    requires StreamSized(s) && ActionsSized(Size(s), SignatureLength(s), acts) && k < |acts|
    requires ExactCopy(env, Before(env, mem, from, s, acts, k))
    ensures
      var p := Before(env, mem, from, s, acts, k);
      ExactCopy(env, Before(env, mem, from, s, acts, k + 1)) <==> p.hung || KeepsExact(env, p, acts[k])
  {
    hide Perform, Exec, ExactCopy, KeepsExact;
    var p := Before(env, mem, from, s, acts, k);
    BeforeNext(env, mem, from, s, acts, k, p);
    PerformExactIff(env, mem, from + Wakes(acts[..k + 1]), p, acts[k]);
  }

  ghost predicate AllKeepExact(env: Env, mem: Memory, from: nat, s: Stream, acts: seq<Action>)
    requires StreamSized(s) && ActionsSized(Size(s), SignatureLength(s), acts)
  {
    forall k :: 0 <= k < |acts| && !Before(env, mem, from, s, acts, k).hung ==>
      KeepsExact(env, Before(env, mem, from, s, acts, k), acts[k])
  }

  /** Over runs: the resolved addresses, null entries' included, are in every state what a copy of the
      buffer would give if and only if every action of the run keeps them so where it arrives. */
  lemma RunIsExactIff(env: Env, mem: Memory, from: nat, s: Stream, acts: seq<Action>)
    requires StreamSized(s) && ActionsSized(Size(s), SignatureLength(s), acts) && ExactCopy(env, s)
    ensures (forall k :: 0 <= k <= |acts| ==> ExactCopy(env, Before(env, mem, from, s, acts, k))) <==>
            AllKeepExact(env, mem, from, s, acts)
  {
    hide Exec, ExactCopy, KeepsExact;
    if forall k :: 0 <= k <= |acts| ==> ExactCopy(env, Before(env, mem, from, s, acts, k)) {
      forall k | 0 <= k < |acts| && !Before(env, mem, from, s, acts, k).hung
        ensures KeepsExact(env, Before(env, mem, from, s, acts, k), acts[k])
      {
        assert ExactCopy(env, Before(env, mem, from, s, acts, k + 1));
        StepExactIff(env, mem, from, s, acts, k);
      }
    }
    if AllKeepExact(env, mem, from, s, acts) {
      forall k | 0 <= k <= |acts| ensures ExactCopy(env, Before(env, mem, from, s, acts, k)) {
        ExactBefore(env, mem, from, s, acts, k);
      }
    }
  }

  lemma {:induction false} ExactBefore(env: Env, mem: Memory, from: nat, s: Stream, acts: seq<Action>, k: nat)
    requires StreamSized(s) && ActionsSized(Size(s), SignatureLength(s), acts) && ExactCopy(env, s)
    requires AllKeepExact(env, mem, from, s, acts) && k <= |acts|
    ensures ExactCopy(env, Before(env, mem, from, s, acts, k))
    decreases k
  {
    hide Perform, ExactCopy, KeepsExact;
    if k > 0 {
      ExactBefore(env, mem, from, s, acts, k - 1);
      StepExactIff(env, mem, from, s, acts, k - 1);
    }
  }
}
