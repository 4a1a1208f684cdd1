/** What each action does to a stream, told in full and without the functions that make it up: in terms
    of the message, of what was there, and of which addresses symbols stand for. */
module Effects {
  import opened Types
  import opened Signatures
  import opened Summary
  import opened Engine
  import opened AnyTable
  import opened Validation
  import opened Commands
  import opened Runs
  import opened LoadContract

  // ----- start and stop

  /** A Start enables both copies - the buffer only if it is reached -, puts the cursor at the first entry
      with the next wakeup due, and keeps everything else. */
  lemma StartEffect(env: Env, mem: Memory, now: nat, s: Stream, ok: bool)
    requires StreamSized(s) && !s.hung
    ensures
      var r := Perform(env, mem, now, s, Start(ok));
      && r.local.setup == s.local.setup.(enabled := ENABLED)
      && r.local.cursor == Cursor(1, 0, 0, s.local.cursor.data)
      && r.buffer == (if ok then s.buffer.(enabled := ENABLED) else s.buffer)
      && r.trace == s.trace && !r.hung
  {
  }

  /** A Stop disables both copies, clears countdown and position, and keeps everything else. */
  lemma StopEffect(env: Env, mem: Memory, now: nat, s: Stream, ok: bool)
    requires StreamSized(s) && !s.hung
    ensures
      var r := Perform(env, mem, now, s, Stop(ok));
      && r.local.setup == s.local.setup.(enabled := DISABLED)
      && r.local.cursor == Cursor(0, 0, 0, s.local.cursor.data)
      && r.buffer == (if ok then s.buffer.(enabled := DISABLED) else s.buffer)
      && r.trace == s.trace && !r.hung
  {
  }

  /** A command that does not reach the buffer leaves all of it as it was. */
  lemma LostAccessKeepsBuffer(env: Env, mem: Memory, now: nat, s: Stream, a: Action)
    requires StreamSized(s) && ActionSized(Size(s), SignatureLength(s), a)
    requires !AccessOk(a) && !a.Load?
    ensures Perform(env, mem, now, s, a).buffer == s.buffer
  {
  }

  lemma IdleStepWhileDisabled(env: Env, mem: Memory, now: nat, s: Stream, a: Action)
    requires StreamSized(s) && ActionSized(Size(s), SignatureLength(s), a)
    requires s.local.setup.enabled == DISABLED && !a.Start? && !a.Load?
    ensures
      var r := Perform(env, mem, now, s, a);
      r.local.setup.enabled == DISABLED && r.trace == s.trace && r.hung == s.hung
  {
    hide Iterate, JamChecks;
    if a.Wake? {
      assert WakeupAny(s.local, mem, now) == Some(Step(s.local.cursor, []));
    }
  }

  /** A disabled table stays disabled, takes no sample and sends no packet in any run without a Start
      or a load. */
  lemma {:induction false} IdleUntilStarted(env: Env, mem: Memory, from: nat, s: Stream, acts: seq<Action>)
    requires StreamSized(s) && ActionsSized(Size(s), SignatureLength(s), acts)
    requires s.local.setup.enabled == DISABLED
    requires forall i :: 0 <= i < |acts| ==> !acts[i].Start? && !acts[i].Load?
    ensures
      var r := Exec(env, mem, from, s, acts);
      r.local.setup.enabled == DISABLED && r.trace == s.trace && r.hung == s.hung
    decreases |acts|
  {
    hide Perform;
    if acts != [] {
      var front := acts[..|acts| - 1];
      IdleUntilStarted(env, mem, from, s, front);
      IdleStepWhileDisabled(env, mem, from + Wakes(acts), Exec(env, mem, from, s, front), acts[|acts| - 1]);
    }
  }

  // ----- signatures

  /** The text of a signature field: what comes before its first NUL. */
  function Text(s: string): string {
    s[..TextLength(s)]
  }

  /** A signature with a NUL arrives in both copies - the buffer's only if it is reached - as the text
      it carries; everything else is kept. One without a NUL changes nothing. */
  lemma SignatureEffect(env: Env, mem: Memory, now: nat, s: Stream, signature: string, ok: bool)
    requires StreamSized(s) && !s.hung && |signature| == SignatureLength(s)
    ensures
      var r := Perform(env, mem, now, s, SetSignature(signature, ok));
      && ('\0' !in signature ==> r == s)
      && ('\0' in signature ==>
            && Text(r.local.setup.signature) == Text(signature)
            && |r.local.setup.signature| == |s.local.setup.signature|
            && (if ok then Text(r.buffer.signature) == Text(signature) else r.buffer == s.buffer)
            && r == s.(local := s.local.(setup := s.local.setup.(signature := r.local.setup.signature)),
                       buffer := s.buffer.(signature := r.buffer.signature)))
  {
    CopySignatureKeepsText(signature);
  }

  lemma {:induction false} IterateSends(s: Setup, c: Cursor, mem: Memory, now: nat, n: nat, e: Event)
    requires SetupSized(s) && CursorSized(|s.entry|, c) && c.currentEntry < s.addrCount
    requires Iterate(s, c, mem, now, n).Some?
    requires e in Iterate(s, c, mem, now, n).value.events && e.Send?
    ensures e.at == now && e.packet == PacketOf(s, e.packet.data)
    decreases n
  {
    if n > 0 && c.countdown == 0 {
      var p := Collect(s, c, mem, now).value;
      if e !in p.events {
        IterateSends(s, p.cursor, mem, now, n - 1, e);
      }
    }
  }

  /** Every packet of a wakeup carries the text the table has. */
  lemma PacketsCarryText(t: Table, mem: Memory, now: nat, e: Event)
    requires Sized(t) && HasNul(t.setup.signature) && WakeupAny(t, mem, now).Some?
    requires e in WakeupAny(t, mem, now).value.events && e.Send?
    ensures Text(e.packet.signature) == Text(t.setup.signature)
  {
    hide Iterate, PacketOf;
    if Processed(t.setup) && t.cursor.currentEntry < t.setup.addrCount {
      IterateSends(t.setup, Ticked(t.cursor), mem, now, t.setup.addrCount, e);
    }
    PacketText(t.setup, t.cursor.data);
    PacketText(t.setup, e.packet.data);
  }

  lemma PacketText(s: Setup, data: seq<u8>)
    requires HasNul(s.signature)
    ensures PacketOf(s, data).data == data
    ensures Text(PacketOf(s, data).signature) == Text(s.signature)
  {
    CopySignatureKeepsText(s.signature);
  }

  // ----- jams

  /** A Jam of entry slot + 1: a null one clears the entry; a good dwell replaces it, resolved in the
      local structure and as it came in the buffer, which is reached only with its access; any other
      changes nothing. The summary is recomputed if and only if the buffer is reached. */
  lemma JamEffect(env: Env, mem: Memory, now: nat, s: Stream, slot: nat, length: u16, delay: u16, address: SymAddr,
                  ok: bool)
    requires StreamSized(s) && !s.hung && slot < Size(s)
    ensures slot + 1 < U16_SPAN
    ensures
      var r := Perform(env, mem, now, s, Jam(slot + 1, length, delay, address, ok));
      var resolved := ResolveSymAddr(env, address);
      && (length == 0 ==> EntryJammed(s, r, slot, Entry(0, 0, 0), Entry(0, 0, SymAddr(0, "")), ok))
      && (length != 0 && resolved.Some? && GoodRead(env, resolved.value, length) ==>
            EntryJammed(s, r, slot, Entry(length, delay, resolved.value), Entry(length, delay, address), ok))
      && (length != 0 && !(resolved.Some? && GoodRead(env, resolved.value, length)) ==> r == s)
  {
    hide Summarised, Summarises;
    SummaryIsRight(s.local.setup.(entry := s.local.setup.entry[slot := Entry(0, 0, 0)]));
    if length != 0 && ResolveSymAddr(env, address).Some? {
      SummaryIsRight(s.local.setup.(
        entry := s.local.setup.entry[slot := Entry(length, delay, ResolveSymAddr(env, address).value)]));
    }
  }

  /** One entry of the local structure is replaced, and one of the buffer if it is reached. */
  ghost predicate EntryJammed(s: Stream, r: Stream, slot: nat, e: ControlEntry, le: LoadEntry, ok: bool)
    requires slot < Size(s) == |s.buffer.entry|
  {
    && r.local.setup.entry == s.local.setup.entry[slot := e]
    && r.buffer == (if ok then s.buffer.(entry := s.buffer.entry[slot := le]) else s.buffer)
    && (if ok then Summarises(r.local.setup)
        else && r.local.setup.addrCount == s.local.setup.addrCount
             && r.local.setup.dataSize == s.local.setup.dataSize
             && r.local.setup.rate == s.local.setup.rate)
    && r.local.setup.enabled == s.local.setup.enabled
    && r.local.setup.signature == s.local.setup.signature
    && r.local.cursor == s.local.cursor
    && r.trace == s.trace && !r.hung
  }

  /** No other entry id is accepted. */
  lemma JamIdRejected(env: Env, mem: Memory, now: nat, s: Stream, a: Action)
    requires StreamSized(s) && a.Jam? && (a.entryId == 0 || a.entryId > Size(s))
    ensures Perform(env, mem, now, s, a) == s
  {
  }

  /** A good dwell at a known symbol is jammed to the symbol's value plus the offset, where that is an
      address. */
  lemma JammedSymbol(env: Env, mem: Memory, now: nat, s: Stream, slot: nat, length: u16, delay: u16, address: SymAddr,
                     ok: bool)
    requires StreamSized(s) && !s.hung && slot < Size(s) && slot + 1 < U16_SPAN && length != 0
    requires address.symName != "" && env.lookup(address.symName).Some?
    requires env.lookup(address.symName).value + address.offset < env.addrSpace
    requires GoodRead(env, env.lookup(address.symName).value + address.offset, length)
    ensures Perform(env, mem, now, s, Jam(slot + 1, length, delay, address, ok)).local.setup.entry[slot] ==
            Entry(length, delay, env.lookup(address.symName).value + address.offset)
  {
    hide Perform;
    ResolvedAddress(env, address);
    ResolvedAddress(env, SymAddr(env.lookup(address.symName).value + address.offset, ""));
    JamEffect(env, mem, now, s, slot, length, delay, address, ok);
  }

  // ----- loads

  /** A load replaces the buffer. If its address is obtained it is copied in, entry by entry: length,
      delay, and the address its symbol resolves to, or that of the entry before - zero for the first -
      if it does not. The flag and the text come along, the summary is recomputed, and a load that is
      enabled starts the table. */
  lemma LoadEffect(env: Env, mem: Memory, now: nat, s: Stream, tbl: LoadTable, ok: bool)
    requires StreamSized(s) && !s.hung && HasNul(tbl.signature)
    requires |tbl.entry| == Size(s) && |tbl.signature| == SignatureLength(s)
    ensures
      var r := Perform(env, mem, now, s, Load(tbl, ok));
      && r.buffer == tbl && r.trace == s.trace && !r.hung
      && (if ok then CopiedIn(env, s.local.cursor, tbl, r.local) else r.local == s.local)
  {
    CopyIsIn(env, s.local, tbl);
    hide Loaded;
  }

  /** Length and delay as loaded; the address resolved, or the one before if it does not resolve. */
  predicate EntryCopied(env: Env, load: seq<LoadEntry>, entry: seq<ControlEntry>, i: nat)
    requires i < |load| == |entry|
  {
    && entry[i].length == load[i].length
    && entry[i].delay == load[i].delay
    && entry[i].address ==
       if ResolveSymAddr(env, load[i].address).Some? then ResolveSymAddr(env, load[i].address).value
       else if i == 0 then 0
       else entry[i - 1].address
  }

  ghost predicate CopiedIn(env: Env, was: Cursor, tbl: LoadTable, t: Table) {
    && t.setup.enabled == tbl.enabled % U16_SPAN
    && Text(t.setup.signature) == Text(tbl.signature) && |t.setup.signature| == |tbl.signature|
    && Summarises(t.setup)
    && |t.setup.entry| == |tbl.entry|
    && (forall i :: 0 <= i < |tbl.entry| ==> EntryCopied(env, tbl.entry, t.setup.entry, i))
    && t.cursor == if tbl.enabled == ENABLED then Cursor(1, 0, 0, was.data) else was
  }

  lemma CopyIsIn(env: Env, t: Table, tbl: LoadTable)
    requires |tbl.entry| <= MAX_TABLE_SIZE && HasNul(tbl.signature)
    ensures CopiedIn(env, t.cursor, tbl, Loaded(env, t, tbl))
  {
    hide Summarised, Summarises, ResolveSymAddr, CopySignature, CopyEntry, TextLength, EntryCopied;
    CopySignatureKeepsText(tbl.signature);
    SummaryIsRight(Setup(tbl.enabled % U16_SPAN, 0, 0, 0, CopyEntries(env, tbl.entry), CopySignature(tbl.signature)));
    var entry := CopyEntries(env, tbl.entry);
    forall i | 0 <= i < |tbl.entry| ensures EntryCopied(env, tbl.entry, entry, i) {
      EntryIsCopied(env, tbl.entry, i);
    }
  }

  lemma EntryIsCopied(env: Env, entry: seq<LoadEntry>, i: nat)
    requires i < |entry|
    ensures EntryCopied(env, entry, CopyEntries(env, entry), i)
  {
    hide ResolveSymAddr;
    var copy := CopyEntries(env, entry);
    assert copy[i] == CopyEntry(env, entry, i);
    if i > 0 {
      assert copy[i - 1] == CopyEntry(env, entry, i - 1);
    } else {
      assert Carry(env, entry, 0) == 0;
    }
  }

  // ----- wakeups

  /** A wakeup moves the cursor and adds to the past; it touches neither setup nor buffer. */
  lemma WakeEffect(env: Env, mem: Memory, now: nat, s: Stream)
    requires StreamSized(s)
    ensures
      var r := Perform(env, mem, now, s, Wake);
      && r.local.setup == s.local.setup && r.buffer == s.buffer
      && |s.trace| <= |r.trace| && r.trace[..|s.trace|] == s.trace
      && (s.hung || WakeupAny(s.local, mem, now).None? ==> r == s.(hung := true))
      && (!s.hung && WakeupAny(s.local, mem, now).Some? ==>
            && !r.hung
            && r.local.cursor == WakeupAny(s.local, mem, now).value.cursor
            && r.trace[|s.trace|..] == WakeupAny(s.local, mem, now).value.events)
  {
    hide WakeupAny, Woken;
  }

  /** A shortened table sends its data area as it is and goes back to the first entry, waiting for the
      delay of its last active one. */
  lemma OverrunEffect(t: Table, mem: Memory, now: nat)
    requires Sized(t) && Overrun(t)
    ensures
      var r := WakeupAny(t, mem, now);
      && r.Some?
      && r.value.cursor == Cursor(t.setup.entry[t.setup.addrCount - 1].delay, 0, 0, t.cursor.data)
      && |r.value.events| == 1 && r.value.events[0].Send? && r.value.events[0].at == now
      && r.value.events[0].packet.data == t.cursor.data
  {
  }

  /** A stream that hangs takes no action any more. */
  lemma HungForGood(env: Env, mem: Memory, now: nat, s: Stream, a: Action)
    requires StreamSized(s) && ActionSized(Size(s), SignatureLength(s), a) && s.hung
    ensures Perform(env, mem, now, s, a) == s
  {
  }
}
