/** Loads that validation accepts although an entry behind the first null one is bad, and what happens
    after one good Jam into the null entry. */
module TailWitnesses {
  import opened Types
  import opened Summary
  import opened Engine
  import opened AnyTable
  import opened Validation
  import opened Commands
  import opened Runs
  import opened Coherence
  import opened LoadContract
  import opened TailLengths
  import opened TakenEntries
  import opened Witnesses

  /** A good one-byte dwell into the first entry, a Start, and a wakeup. */
  const EXPOSE := [Jam(1, 1, 0, ABSOLUTE, true), Start(true), Wake]

  lemma ExposeFirst(s: Stream)
    requires StreamSized(s)
    ensures ActionsSized(Size(s), SignatureLength(s), EXPOSE)
    ensures Before(AnyAddress(), Answers(), 0, s, EXPOSE, 0) == s
    ensures Wakes(EXPOSE[..3]) == 1 && EXPOSE[..3] == EXPOSE
  {
    assert EXPOSE[..1][..0] == [];
    assert Wakes(EXPOSE[..1]) == 0;
    assert EXPOSE[..2][..1] == EXPOSE[..1];
    assert Wakes(EXPOSE[..2]) == 0;
    assert EXPOSE[..3] == EXPOSE;
    assert EXPOSE[..3][..2] == EXPOSE[..2];
    assert EXPOSE[2] == Wake;
  }

  /** The Jam recomputes the summary of the entries it leaves. */
  lemma ExposeJam(s: Stream, r: Stream)
    requires StreamSized(s) && r == JamDwell(AnyAddress(), s, 1, 1, 0, ABSOLUTE, true)
    ensures r.hung == s.hung && r.trace == s.trace && r.local.cursor == s.local.cursor
    ensures r.local.setup.entry == s.local.setup.entry[0 := Entry(1, 0, 0)] && Summarises(r.local.setup)
  {
    hide Summarised, Summarises;
    SummaryIsRight(s.local.setup.(entry := s.local.setup.entry[0 := Entry(1, 0, 0)]));
  }

  /** The table after the Jam and the Start. */
  lemma Exposed(s: Stream) returns (p: Stream)
    requires StreamSized(s) && !s.hung
    ensures ActionsSized(Size(s), SignatureLength(s), EXPOSE)
    ensures p == Before(AnyAddress(), Answers(), 0, s, EXPOSE, 2)
    ensures !p.hung && p.trace == s.trace
    ensures p.local.setup.entry == s.local.setup.entry[0 := Entry(1, 0, 0)]
    ensures p.local.setup.enabled == ENABLED && Summarises(p.local.setup)
    ensures p.local.cursor == Restarted(s.local.cursor, 1)
  {
    hide Exec, WakeStream, JamDwell, Summarises;
    ExposeFirst(s);
    BeforeNext(AnyAddress(), Answers(), 0, s, EXPOSE, 0, s);
    var p1 := Before(AnyAddress(), Answers(), 0, s, EXPOSE, 1);
    ExposeJam(s, p1);
    BeforeNext(AnyAddress(), Answers(), 0, s, EXPOSE, 1, p1);
    p := Before(AnyAddress(), Answers(), 0, s, EXPOSE, 2);
    EnabledSummary(p1.local.setup);
  }

  lemma EnabledSummary(s: Setup)
    ensures Summarises(s.(enabled := ENABLED)) <==> Summarises(s)
  {
  }

  // ----- a bad read

  /** A null entry and a dwell behind it. */
  function PairLoad(length: u16, address: nat): LoadTable {
    LoadTable(DISABLED, NO_TEXT, [Entry(0, 0, ABSOLUTE), Entry(length, 1, SymAddr(address, ""))])
  }

  function LoadedPair(length: u16, address: nat): Stream {
    Stream(Loaded(AnyAddress(), Cleared(2, 4), PairLoad(length, address)), PairLoad(length, address), [], false)
  }

  lemma PairLoaded(length: u16, address: nat)
    requires length != 0
    ensures Acceptable(AnyAddress(), PairLoad(length, address))
    ensures
      var s := LoadedPair(length, address);
      && StreamSized(s) && s.local.setup.entry == [Entry(0, 0, 0), Entry(length, 1, address)]
      && Summarises(s.local.setup) && |s.local.cursor.data| == 8
  {
    var tbl := PairLoad(length, address);
    assert tbl.signature[0] == '\0';
    var entry := LoadedPair(length, address).local.setup.entry;
    assert entry[0] == CopyEntry(AnyAddress(), tbl.entry, 0);
    assert entry[1] == CopyEntry(AnyAddress(), tbl.entry, 1);
    CopySummarises(AnyAddress(), tbl);
  }

  /** A started pair samples both entries in its first wakeup. */
  lemma PairWakes(t: Table, length: u16, address: nat, now: nat)
    requires t.setup.entry == [Entry(1, 0, 0), Entry(length, 1, address)] && 0 < length % 0x100 <= 7
    requires t.setup.enabled == ENABLED && Summarises(t.setup)
    requires |t.cursor.data| == 8 && t.cursor == Restarted(t.cursor, 1)
    ensures Sized(t) && WakeupAny(t, Answers(), now).Some?
    ensures
      var events := WakeupAny(t, Answers(), now).value.events;
      |events| == 3 && events[1] == SampleOf(t.setup, Answers(), 1, now)
  {
    var s, c := t.setup, Ticked(t.cursor);
    ActiveCountIs(s.entry, 2);
    assert DelaySum(s.entry, 1) == 0;
    assert s.entry[1].delay == 1;
    var p := Collect(s, c, Answers(), now).value;
    var q := Collect(s, p.cursor, Answers(), now).value;
    assert Iterate(s, q.cursor, Answers(), now, 0) == Some(Step(q.cursor, []));
    assert Iterate(s, p.cursor, Answers(), now, 1) == Some(Step(q.cursor, q.events + []));
    assert q.events + [] == q.events;
    assert Iterate(s, c, Answers(), now, 2) == Some(Step(q.cursor, p.events + q.events));
  }

  /** After the Jam and the Start the second entry is sampled in the very next wakeup. */
  lemma PairSampled(length: u16, address: nat) returns (trace: seq<Event>)
    requires 0 < length % 0x100 <= 7
    ensures Acceptable(AnyAddress(), PairLoad(length, address))
    ensures
      var s := LoadedPair(length, address);
      && StreamSized(s) && ActionsSized(Size(s), SignatureLength(s), EXPOSE)
      && trace == Exec(AnyAddress(), Answers(), 0, s, EXPOSE).trace
    ensures |trace| == 3 && trace[1] == Sample(1, 1, address, length, ReadCode(length % 0x100, Some([0, 0, 0, 0])))
  {
    hide Exec, WakeupAny, Loaded, Acceptable, Summarises;
    PairLoaded(length, address);
    var s := LoadedPair(length, address);
    ExposeFirst(s);
    var p := Exposed(s);
    PairWakes(p.local, length, address, 1);
    BeforeNext(AnyAddress(), Answers(), 0, s, EXPOSE, 2, p);
    trace := Exec(AnyAddress(), Answers(), 0, s, EXPOSE).trace;
    assert trace == [] + WakeupAny(p.local, Answers(), 1).value.events;
  }

  /** Validation passes over a misaligned dwell behind the first null entry. One good Jam into the null
      entry makes it active, and the next wakeup after a Start reads it. */
  lemma ValidatedTailIsRead() returns (trace: seq<Event>)
    ensures Acceptable(AnyAddress(), PairLoad(2, 1)) && !GoodLoad(AnyAddress(), PairLoad(2, 1))
    ensures
      var s := LoadedPair(2, 1);
      && StreamSized(s) && ActionsSized(Size(s), SignatureLength(s), EXPOSE)
      && ActiveProtected(AnyAddress(), s.local.setup)
      && trace == Exec(AnyAddress(), Answers(), 0, s, EXPOSE).trace
    ensures |trace| == 3 && trace[1] == Sample(1, 1, 1, 2, SUCCESS) && !SafeTrace(AnyAddress(), trace)
  {
    hide Exec, Loaded, Acceptable;
    PairLoaded(2, 1);
    trace := PairSampled(2, 1);
    assert !GoodEntry(AnyAddress(), PairLoad(2, 1).entry[1]);
    assert !SafeEvent(AnyAddress(), trace[1]);
  }

  /** A length of 3 there: every access succeeds and the summary is right throughout, and the engine
      runs into its branch for invalid lengths. */
  lemma InvalidLengthSampled() returns (trace: seq<Event>)
    ensures Acceptable(AnyAddress(), PairLoad(3, 0))
    ensures
      var s := LoadedPair(3, 0);
      && StreamSized(s) && ActionsSized(Size(s), SignatureLength(s), EXPOSE)
      && Coherent(s.local.setup) && LostJamsHarmless(AnyAddress(), Answers(), 0, s, EXPOSE)
      && trace == Exec(AnyAddress(), Answers(), 0, s, EXPOSE).trace
    ensures |trace| == 3 && trace[1] == Sample(1, 1, 0, 3, INVALID_LENGTH) && !RealSamples(trace)
  {
    hide Exec, Loaded, Acceptable;
    PairLoaded(3, 0);
    CoherentIs(LoadedPair(3, 0).local.setup);
    ActiveCountIs(LoadedPair(3, 0).local.setup.entry, 0);
    trace := PairSampled(3, 0);
    assert trace[1].Sample?;
  }

  // ----- a write outside the data area

  const LONG_LOAD :=
    LoadTable(DISABLED, NO_TEXT, [Entry(0, 0, ABSOLUTE), Entry(200, 0, ABSOLUTE), Entry(4, 1, ABSOLUTE)])

  function LoadedLong(): Stream {
    Stream(Loaded(AnyAddress(), Cleared(3, 4), LONG_LOAD), LONG_LOAD, [], false)
  }

  lemma LongLoaded()
    ensures Acceptable(AnyAddress(), LONG_LOAD) && !GoodLoad(AnyAddress(), LONG_LOAD)
    ensures
      var s := LoadedLong();
      && StreamSized(s) && |s.local.cursor.data| == 12
      && s.local.setup.entry == [Entry(0, 0, 0), Entry(200, 0, 0), Entry(4, 1, 0)]
  {
    assert LONG_LOAD.signature[0] == '\0';
    assert !GoodEntry(AnyAddress(), LONG_LOAD.entry[1]);
    var entry := LoadedLong().local.setup.entry;
    assert entry[0] == CopyEntry(AnyAddress(), LONG_LOAD.entry, 0);
    assert entry[1] == CopyEntry(AnyAddress(), LONG_LOAD.entry, 1);
    assert entry[2] == CopyEntry(AnyAddress(), LONG_LOAD.entry, 2);
  }

  /** One byte is stored, the second entry is not read but moves the offset to 201, and the third
      one's four bytes go there - in a data area of twelve. */
  lemma LongWakeup(t: Table, now: nat)
    requires t.setup.entry == [Entry(1, 0, 0), Entry(200, 0, 0), Entry(4, 1, 0)]
    requires t.setup.enabled == ENABLED && Summarises(t.setup)
    requires |t.cursor.data| == 12 && t.cursor == Restarted(t.cursor, 1)
    ensures Sized(t) && Overwrites(t, Answers(), now)
    ensures
      var r := Iterate(t.setup, Ticked(t.cursor), Answers(), now, 2);
      r.Some? && r.value.cursor.currentEntry == 2 && r.value.cursor.pktOffset == 201
  {
    var s, c := t.setup, Ticked(t.cursor);
    LongSummary(s);
    hide Summarises;
    var c1 := Collect(s, c, Answers(), now).value.cursor;
    var c2 := Collect(s, c1, Answers(), now).value.cursor;
    assert c2.currentEntry == 2 && c2.pktOffset == 201 && c2.countdown == 0;
    assert Collect(s, c2, Answers(), now).None?;
    assert Iterate(s, c2, Answers(), now, 1).None? && Iterate(s, c2, Answers(), now, 0).Some?;
    assert Iterate(s, c1, Answers(), now, 2).None? && Iterate(s, c1, Answers(), now, 1).Some?;
    assert Iterate(s, c, Answers(), now, 3).None?;
  }

  lemma LongSummary(s: Setup)
    requires s.entry == [Entry(1, 0, 0), Entry(200, 0, 0), Entry(4, 1, 0)] && Summarises(s)
    ensures s.addrCount == 3 && s.rate == 1
  {
    ActiveCountIs(s.entry, 3);
    assert DelaySum(s.entry, 1) == 0;
    assert DelaySum(s.entry, 2) == 0;
  }

  /** A load that validation accepts, one good Jam and a Start: the next wakeup writes outside the
      packet's data area. */
  lemma WriteLeavesDataArea()
    ensures Acceptable(AnyAddress(), LONG_LOAD) && !LengthsFit(LONG_LOAD.entry)
    ensures
      var s := LoadedLong();
      && StreamSized(s) && ActionsSized(Size(s), SignatureLength(s), EXPOSE)
      && !WritesInside(AnyAddress(), Answers(), 0, s, EXPOSE)
  {
    hide Exec, Overwrites, Iterate, Loaded, Acceptable, GoodLoad, Summarises;
    LongLoaded();
    assert LONG_LOAD.entry[1].length == 200;
    var p := Exposed(LoadedLong());
    LongWakeup(p.local, 0 + Wakes(EXPOSE[..3]));
    assert EXPOSE[2].Wake?;
  }

  // ----- a data size that wraps

  const WIDE_LOAD :=
    LoadTable(DISABLED, NO_TEXT, [Entry(0, 0, ABSOLUTE), Entry(40000, 1, ABSOLUTE), Entry(40000, 1, ABSOLUTE)])

  function LoadedWide(): Stream {
    Stream(Loaded(AnyAddress(), Cleared(3, 4), WIDE_LOAD), WIDE_LOAD, [], false)
  }

  lemma WideLoaded()
    ensures Acceptable(AnyAddress(), WIDE_LOAD)
    ensures
      var s := LoadedWide();
      && StreamSized(s) && Coherent(s.local.setup)
      && s.local.setup.entry == [Entry(0, 0, 0), Entry(40000, 1, 0), Entry(40000, 1, 0)]
  {
    assert WIDE_LOAD.signature[0] == '\0';
    var s := LoadedWide().local.setup;
    assert s.entry[0] == CopyEntry(AnyAddress(), WIDE_LOAD.entry, 0);
    assert s.entry[1] == CopyEntry(AnyAddress(), WIDE_LOAD.entry, 1);
    assert s.entry[2] == CopyEntry(AnyAddress(), WIDE_LOAD.entry, 2);
    CopySummarises(AnyAddress(), WIDE_LOAD);
    CoherentIs(s);
  }

  /** No access is lost and every Jam is good, but the active lengths then add up to 80001, and
      DataSize, of sixteen bits, holds 14465. */
  lemma DataSizeWraps()
    ensures Acceptable(AnyAddress(), WIDE_LOAD)
    ensures
      var s := LoadedWide();
      && StreamSized(s) && Coherent(s.local.setup)
      && ActionsSized(Size(s), SignatureLength(s), EXPOSE) && AllAccessOk(EXPOSE)
      && LostJamsHarmless(AnyAddress(), Answers(), 0, s, EXPOSE)
      && var p := Before(AnyAddress(), Answers(), 0, s, EXPOSE, 2).local.setup;
      && LengthSum(p.entry, ActiveCount(p.entry)) == 80001 && p.dataSize == 14465
      && Summarises(p) && !Coherent(p)
  {
    hide Exec, Loaded, Acceptable;
    WideLoaded();
    var p := Exposed(LoadedWide());
    var entry := p.local.setup.entry;
    assert entry == [Entry(1, 0, 0), Entry(40000, 1, 0), Entry(40000, 1, 0)];
    ActiveCountIs(entry, 3);
    assert LengthSum(entry, 1) == 1;
    assert LengthSum(entry, 2) == 40001;
  }
}
