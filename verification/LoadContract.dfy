/** What validation of a load does and does not guarantee for what happens after it. */
module LoadContract {
  import opened Types
  import opened Summary
  import opened Signatures
  import opened Engine
  import opened AnyTable
  import opened Validation
  import opened Commands
  import opened Runs

  // ----- the zero-rate notice

  /** The copy of any load has the summary that validation read from it, in the same widths. */
  lemma CopyHasReadSummary(env: Env, tbl: LoadTable)
    requires |tbl.entry| <= MAX_TABLE_SIZE
    ensures CopyOf(env, tbl).addrCount == ActiveCount(tbl.entry)
    ensures CopyOf(env, tbl).dataSize == LengthSum(tbl.entry, ActiveCount(tbl.entry)) % U16_SPAN
    ensures CopyOf(env, tbl).rate == DelaySum(tbl.entry, ActiveCount(tbl.entry))
  {
    var entry := CopyEntries(env, tbl.entry);
    assert SameTiming(entry, tbl.entry, |entry|);
    hide CopyEntries, SameTiming;
    SummaryOfTiming(Setup(tbl.enabled % U16_SPAN, 0, 0, 0, entry, CopySignature(tbl.signature)), tbl.entry);
  }

  lemma SummaryOfTiming(s: Setup, entry: seq<LoadEntry>)
    requires |s.entry| == |entry| <= MAX_TABLE_SIZE && SameTiming(s.entry, entry, |entry|)
    ensures Summarised(s).addrCount == ActiveCount(entry)
    ensures Summarised(s).dataSize == LengthSum(entry, ActiveCount(entry)) % U16_SPAN
    ensures Summarised(s).rate == DelaySum(entry, ActiveCount(entry))
  {
    hide SameTiming, LengthSum, DelaySum, Coherent, FieldLengths;
    ActiveCountAgrees(s.entry, entry);
    var n := ActiveCount(entry);
    SameTimingBelow(s.entry, entry, n);
    SumsAgree(s.entry, entry, n);
    DelaySumBound(entry, n);
  }

  lemma SameTimingBelow<A, B>(a: seq<Entry<A>>, b: seq<Entry<B>>, n: nat)
    requires n <= |a| == |b| && SameTiming(a, b, |a|)
    ensures SameTiming(a, b, n)
  {
  }

  /** Nothing but a Jam or a load changes a table's entries. */
  predicate KeepsEntries(acts: seq<Action>) {
    forall i :: 0 <= i < |acts| ==> !acts[i].Jam? && !acts[i].Load?
  }

  lemma IdleStep(env: Env, mem: Memory, now: nat, s: Stream, a: Action)
    requires StreamSized(s) && s.local.setup.rate == 0
    requires ActionSized(Size(s), SignatureLength(s), a) && !a.Jam? && !a.Load?
    ensures
      var r := Perform(env, mem, now, s, a);
      r.local.setup.rate == 0 && r.trace == s.trace && r.hung == s.hung
  {
    hide Iterate;
    if a.Wake? {
      assert WakeupAny(s.local, mem, now) == Some(Step(s.local.cursor, []));
    }
  }

  lemma {:induction false} IdleRun(env: Env, mem: Memory, from: nat, s: Stream, acts: seq<Action>)
    requires StreamSized(s) && s.local.setup.rate == 0
    requires ActionsSized(Size(s), SignatureLength(s), acts) && KeepsEntries(acts)
    ensures
      var r := Exec(env, mem, from, s, acts);
      r.local.setup.rate == 0 && r.trace == s.trace && r.hung == s.hung
    decreases |acts|
  {
    hide Perform;
    if acts != [] {
      var front := acts[..|acts| - 1];
      IdleRun(env, mem, from, s, front);
      IdleStep(env, mem, from + Wakes(acts), Exec(env, mem, from, s, front), acts[|acts| - 1]);
    }
  }

  lemma AcceptedFits(env: Env, tbl: LoadTable)
    requires Acceptable(env, tbl) && 1 <= |tbl.entry| <= MAX_TABLE_SIZE
    ensures SetupSized(CopyOf(env, tbl)) && ActiveFit(CopyOf(env, tbl))
  {
    CopySized(env, tbl);
    var s := CopyOf(env, tbl);
    hide CopyOf, Summarised, LengthSum, DelaySum;
    forall i | 0 <= i < s.addrCount ensures s.entry[i].length % 0x100 <= 4 {
      assert GoodEntry(env, tbl.entry[i]);
    }
  }

  lemma CopySized(env: Env, tbl: LoadTable)
    requires 1 <= |tbl.entry| <= MAX_TABLE_SIZE
    ensures SetupSized(CopyOf(env, tbl))
    ensures CopyOf(env, tbl).addrCount == ActiveCount(tbl.entry)
    ensures forall i :: 0 <= i < |tbl.entry| ==> CopyOf(env, tbl).entry[i].length == tbl.entry[i].length
  {
    CopyHasReadSummary(env, tbl);
  }

  /** A table at its first entry, due, with a nonzero rate: the wakeup begins with the sample of entry 0. */
  lemma DueWakeupSamples(s: Setup, c: Cursor, mem: Memory, now: nat)
    requires SetupSized(s) && CursorSized(|s.entry|, c)
    requires Processed(s) && HasDelay(s) && ActiveFit(s)
    requires c.countdown == 1 && c.currentEntry == 0 && c.pktOffset == 0
    ensures WakeupAny(Table(s, c), mem, now).Some?
    ensures WakeupAny(Table(s, c), mem, now).value.events != []
    ensures WakeupAny(Table(s, c), mem, now).value.events[0] == SampleOf(s, mem, 0, now)
  {
    CollectFits(s, Ticked(c), mem, now);
    IterateFits(s, Ticked(c), mem, now, s.addrCount);
  }

  lemma LoadedWakes(env: Env, s: Stream, tbl: LoadTable, mem: Memory, now: nat)
    requires StreamSized(s) && !s.hung
    requires |tbl.entry| == Size(s) && |tbl.signature| == SignatureLength(s)
    requires Acceptable(env, tbl) && tbl.enabled == ENABLED && !NoticeDue(env, tbl)
    ensures
      var r := LoadStream(env, s, tbl, true);
      && StreamSized(r)
      && var w := WakeStream(r, mem, now);
      && !w.hung && |w.trace| > |r.trace|
      && w.trace[|r.trace|] == SampleOf(CopyOf(env, tbl), mem, 0, now)
  {
    var r := LoadStream(env, s, tbl, true);
    LoadOk(env, s, tbl, true);
    AcceptedFits(env, tbl);
    CopyHasReadSummary(env, tbl);
    CopyHasDelay(env, tbl);
    hide CopyOf, Iterate, ActiveFit, WakeupAny;
    DueWakeupSamples(r.local.setup, r.local.cursor, mem, now);
  }

  lemma CopyHasDelay(env: Env, tbl: LoadTable)
    requires |tbl.entry| <= MAX_TABLE_SIZE
    requires DelaySum(tbl.entry, ActiveCount(tbl.entry)) > 0
    ensures ActiveCount(tbl.entry) == CopyOf(env, tbl).addrCount <= |CopyOf(env, tbl).entry|
    ensures HasDelay(CopyOf(env, tbl))
  {
    CopyHasReadSummary(env, tbl);
    var s := CopyOf(env, tbl);
    DelaySumPositive(tbl.entry, ActiveCount(tbl.entry));
    var j :| 0 <= j < ActiveCount(tbl.entry) && tbl.entry[j].delay > 0;
    assert s.entry[j].delay > 0;
  }

  /** The zero-rate notice means what it says. For an accepted, enabled load that is copied in it is
      issued if and only if the table takes no sample and sends no packet in any run of wakeups,
      starts, stops and signature changes - until a Jam or a load gives it other entries. */
  lemma ZeroRateNotice(env: Env, mem: Memory, from: nat, s: Stream, tbl: LoadTable)
    requires StreamSized(s) && !s.hung
    requires |tbl.entry| == Size(s) && |tbl.signature| == SignatureLength(s)
    requires Acceptable(env, tbl) && tbl.enabled == ENABLED
    ensures
      var r := LoadStream(env, s, tbl, true);
      && StreamSized(r)
      && (NoticeDue(env, tbl) <==>
          forall acts :: ActionsSized(Size(r), SignatureLength(r), acts) && KeepsEntries(acts) ==>
                         Exec(env, mem, from, r, acts).trace == r.trace)
  {
    hide Perform, Acceptable, CopyOf;
    var r := LoadStream(env, s, tbl, true);
    LoadOk(env, s, tbl, true);
    if NoticeDue(env, tbl) {
      CopyHasReadSummary(env, tbl);
      forall acts | ActionsSized(Size(r), SignatureLength(r), acts) && KeepsEntries(acts)
        ensures Exec(env, mem, from, r, acts).trace == r.trace
      {
        IdleRun(env, mem, from, r, acts);
      }
    } else {
      OneWakeSamples(env, mem, from, s, tbl);
    }
  }

  lemma OneWakeSamples(env: Env, mem: Memory, from: nat, s: Stream, tbl: LoadTable)
    requires StreamSized(s) && !s.hung
    requires |tbl.entry| == Size(s) && |tbl.signature| == SignatureLength(s)
    requires Acceptable(env, tbl) && tbl.enabled == ENABLED && !NoticeDue(env, tbl)
    ensures
      var r := LoadStream(env, s, tbl, true);
      && StreamSized(r) && ActionsSized(Size(r), SignatureLength(r), [Wake]) && KeepsEntries([Wake])
      && Exec(env, mem, from, r, [Wake]).trace != r.trace
  {
    hide Acceptable, CopyOf, WakeStream;
    var r := LoadStream(env, s, tbl, true);
    LoadOk(env, s, tbl, true);
    LoadedWakes(env, s, tbl, mem, from + 1);
    assert [Wake][..0] == [];
    assert Exec(env, mem, from, r, []) == r;
  }

  // ----- entries behind the first null one

  /** What validation looks at: the active entries are good. */
  ghost predicate ActiveProtected(env: Env, s: Setup) {
    forall i :: 0 <= i < ActiveCount(s.entry) ==> GoodRead(env, s.entry[i].address, s.entry[i].length)
  }

  ghost predicate OnlyJams(acts: seq<Action>) {
    forall i :: 0 <= i < |acts| ==> acts[i].Jam? && acts[i].ok
  }

  /** Jam the same good dwell into the entries 1..k. */
  function FillJams(k: nat, length: u16, delay: u16, address: SymAddr): (r: seq<Action>)
    requires k <= MAX_TABLE_SIZE
    ensures |r| == k
    ensures forall i :: 0 <= i < k ==> r[i] == Jam(i + 1, length, delay, address, true)
  {
    if k == 0 then [] else FillJams(k - 1, length, delay, address) + [Jam(k, length, delay, address, true)]
  }

  /** What one accepted Jam does to the entries. */
  lemma JamFills(env: Env, mem: Memory, now: nat, s: Stream, k: nat, length: u16, delay: u16, address: SymAddr)
    requires StreamSized(s) && !s.hung && 0 < k <= Size(s)
    requires length != 0 && JamChecks(env, length, address).Accepted?
    ensures
      var r := Perform(env, mem, now, s, Jam(k, length, delay, address, true));
      && !r.hung && r.trace == s.trace && r.local.cursor == s.local.cursor
      && r.local.setup == Summarised(s.local.setup.(entry :=
           s.local.setup.entry[k - 1 := Entry(length, delay, JamChecks(env, length, address).address)]))
  {
    hide Summarised;
  }

  /** The first k entries have this length, the others are as they were. */
  ghost predicate FilledUpTo(was: seq<ControlEntry>, now: seq<ControlEntry>, k: nat, length: u16) {
    && |now| == |was|
    && (forall i :: 0 <= i < k && i < |was| ==> now[i].length == length)
    && (forall i :: k <= i < |was| ==> now[i] == was[i])
  }

  lemma FilledOn(was: seq<ControlEntry>, before: seq<ControlEntry>, k: nat, e: ControlEntry)
    requires k < |was| && FilledUpTo(was, before, k, e.length)
    ensures FilledUpTo(was, before[k := e], k + 1, e.length)
  {
  }

  lemma {:induction false} FilledByJams(env: Env, mem: Memory, from: nat, s: Stream, k: nat,
                                        length: u16, delay: u16, address: SymAddr, acts: seq<Action>)
    requires StreamSized(s) && !s.hung && k <= Size(s)
    requires length != 0 && JamChecks(env, length, address).Accepted?
    requires acts == FillJams(k, length, delay, address)
    ensures ActionsSized(Size(s), SignatureLength(s), acts)
    ensures !Exec(env, mem, from, s, acts).hung
    ensures FilledUpTo(s.local.setup.entry, Exec(env, mem, from, s, acts).local.setup.entry, k, length)
    decreases k
  {
    assert Size(s) <= MAX_TABLE_SIZE;
    hide Perform, StreamSized, JamChecks, FilledUpTo;
    if k == 0 {
      NothingFilled(s.local.setup.entry, length);
    } else {
      var front := acts[..k - 1];
      assert front == FillJams(k - 1, length, delay, address);
      FilledByJams(env, mem, from, s, k - 1, length, delay, address, front);
      var p := Exec(env, mem, from, s, front);
      JamFillsOn(env, mem, from + Wakes(acts), s, p, k, length, delay, address);
    }
  }

  lemma NothingFilled(was: seq<ControlEntry>, length: u16)
    ensures FilledUpTo(was, was, 0, length)
  {
  }

  lemma JamFillsOn(env: Env, mem: Memory, now: nat, s: Stream, p: Stream, k: nat,
                   length: u16, delay: u16, address: SymAddr)
    requires StreamSized(p) && !p.hung && 0 < k <= Size(s) == Size(p)
    requires length != 0 && JamChecks(env, length, address).Accepted?
    requires FilledUpTo(s.local.setup.entry, p.local.setup.entry, k - 1, length)
    ensures
      var r := Perform(env, mem, now, p, Jam(k, length, delay, address, true));
      !r.hung && FilledUpTo(s.local.setup.entry, r.local.setup.entry, k, length)
  {
    hide Perform, FilledUpTo, JamChecks;
    var e := Entry(length, delay, JamChecks(env, length, address).address);
    JamFills(env, mem, now, p, k, length, delay, address);
    FilledOn(s.local.setup.entry, p.local.setup.entry, k - 1, e);
  }

  /** Validation alone is enough for every later state - the active entries stay good under any
      sequence of Jams - if and only if the entries behind the first null one are good too, of
      whatever lengths they are: the load contract cannot be weakened to what validation checks.
      The platform is assumed to have some address worth jamming. */
  lemma TailMustBeGood(env: Env, mem: Memory, from: nat, s: Stream, length: u16, address: SymAddr)
    requires StreamSized(s) && !s.hung
    requires length != 0 && JamChecks(env, length, address).Accepted?
    ensures (forall acts :: OnlyJams(acts) && ActionsSized(Size(s), SignatureLength(s), acts) ==>
                            ActiveProtected(env, Exec(env, mem, from, s, acts).local.setup))
            <==> Protected(env, s.local.setup)
  {
    if Protected(env, s.local.setup) {
      forall acts | OnlyJams(acts) && ActionsSized(Size(s), SignatureLength(s), acts)
        ensures ActiveProtected(env, Exec(env, mem, from, s, acts).local.setup)
      {
        hide Exec;
        RunIsProtected(env, mem, from, s, acts);
      }
    } else {
      var acts := BadTailExposed(env, mem, from, s, length, address);
    }
  }

  lemma BadTailExposed(env: Env, mem: Memory, from: nat, s: Stream, length: u16, address: SymAddr)
    returns (acts: seq<Action>)
    requires StreamSized(s) && !s.hung && !Protected(env, s.local.setup)
    requires length != 0 && JamChecks(env, length, address).Accepted?
    ensures OnlyJams(acts) && ActionsSized(Size(s), SignatureLength(s), acts)
    ensures !ActiveProtected(env, Exec(env, mem, from, s, acts).local.setup)
  {
    hide Exec;
    var b :| 0 <= b < Size(s) && s.local.setup.entry[b].length != 0 &&
             !GoodRead(env, s.local.setup.entry[b].address, s.local.setup.entry[b].length);
    acts := FillJams(b, length, 1, address);
    FilledByJams(env, mem, from, s, b, length, 1, address, acts);
    var e := Exec(env, mem, from, s, acts).local.setup.entry;
    assert ActiveCount(e) > b;
    assert e[b] == s.local.setup.entry[b];
  }

  /** The same for an accepted load that has just been copied in: the exact condition is that every
      entry, with the address the copy gave it, is null or good. Where all symbols resolve this is
      the documented contract. */
  lemma LoadMustBeGood(env: Env, mem: Memory, from: nat, s: Stream, tbl: LoadTable, length: u16, address: SymAddr)
    requires StreamSized(s) && !s.hung
    requires |tbl.entry| == Size(s) && |tbl.signature| == SignatureLength(s)
    requires Acceptable(env, tbl)
    requires length != 0 && JamChecks(env, length, address).Accepted?
    ensures
      var r := LoadStream(env, s, tbl, true);
      && StreamSized(r)
      && ((forall acts :: OnlyJams(acts) && ActionsSized(Size(r), SignatureLength(r), acts) ==>
                          ActiveProtected(env, Exec(env, mem, from, r, acts).local.setup))
          <==> Protected(env, CopyOf(env, tbl)))
    ensures SymbolsResolve(env, tbl) ==> (Protected(env, CopyOf(env, tbl)) <==> GoodLoad(env, tbl))
  {
    hide Exec;
    LoadOk(env, s, tbl, true);
    TailMustBeGood(env, mem, from, LoadStream(env, s, tbl, true), length, address);
    if SymbolsResolve(env, tbl) {
      GoodWhereResolved(env, tbl);
    }
  }

  ghost predicate SymbolsResolve(env: Env, tbl: LoadTable) {
    forall i :: 0 <= i < |tbl.entry| && tbl.entry[i].length != 0 ==> ResolveSymAddr(env, tbl.entry[i].address).Some?
  }

  lemma GoodWhereResolved(env: Env, tbl: LoadTable)
    requires |tbl.entry| <= MAX_TABLE_SIZE && Acceptable(env, tbl) && SymbolsResolve(env, tbl)
    ensures Protected(env, CopyOf(env, tbl)) <==> GoodLoad(env, tbl)
  {
    var entry := CopyOf(env, tbl).entry;
    forall i | 0 <= i < |tbl.entry|
      ensures GoodEntry(env, tbl.entry[i]) <==> entry[i].length == 0 || GoodRead(env, entry[i].address, entry[i].length)
    {
      assert entry[i] == CopyEntry(env, tbl.entry, i);
    }
  }
}
