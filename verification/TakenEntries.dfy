/** Which entries the engine can ever take: the exact condition under which every entry taken in any run
    has a given property that all accepted Jams have. Applied to lengths it says when the engine's branch
    for invalid lengths is dead, applied to addresses when every memory read is good. */
module TakenEntries {
  import opened Types
  import opened Summary
  import opened Engine
  import opened AnyTable
  import opened Validation
  import opened Commands
  import opened Runs
  import opened Coherence
  import opened LoadContract

  /** A property of a dwell: its length and its address. */
  type Dwell = (nat, nat) -> bool

  // ----- what is taken

  /** After m passes the loop is about to take the entry in this slot. */
  ghost predicate TakesAfter(s: Setup, c: Cursor, mem: Memory, now: nat, slot: nat, m: nat)
    requires SetupSized(s) && CursorSized(|s.entry|, c) && c.currentEntry < s.addrCount
  {
    var r := Iterate(s, c, mem, now, m);
    r.Some? && r.value.cursor.countdown == 0 && r.value.cursor.currentEntry == slot
  }

  /** This wakeup takes the entry in this slot - even if it then never ends, or leaves the data area. */
  ghost predicate Takes(t: Table, mem: Memory, now: nat, slot: nat)
    requires Sized(t)
  {
    && Processed(t.setup)
    && t.cursor.currentEntry < t.setup.addrCount
    && exists m: nat :: TakesAfter(t.setup, Ticked(t.cursor), mem, now, slot, m)
  }

  predicate Holds(good: Dwell, e: ControlEntry) {
    e.length != 0 && good(e.length, e.address)
  }

  /** Every entry that wakeups of the run take is a dwell with the property. */
  ghost predicate TakesOnly(env: Env, good: Dwell, mem: Memory, from: nat, s: Stream, acts: seq<Action>)
    requires StreamSized(s) && ActionsSized(Size(s), SignatureLength(s), acts)
  {
    forall k :: 0 <= k < |acts| && acts[k].Wake? && !Before(env, mem, from, s, acts, k).hung ==>
      WakeTakesOnly(good, Before(env, mem, from, s, acts, k).local, mem, from + Wakes(acts[..k + 1]))
  }

  ghost predicate WakeTakesOnly(good: Dwell, t: Table, mem: Memory, now: nat)
    requires Sized(t)
  {
    forall slot :: 0 <= slot < |t.setup.entry| && Takes(t, mem, now, slot) ==> Holds(good, t.setup.entry[slot])
  }

  // ----- the condition

  /** Every entry is null or has the property - or is the only one and has no delay, so that the
      table's rate is zero as long as that entry is there. */
  ghost predicate EntriesHold(good: Dwell, entry: seq<ControlEntry>) {
    forall i :: 0 <= i < |entry| ==>
      entry[i].length == 0 || good(entry[i].length, entry[i].address) || (|entry| == 1 && entry[i].delay == 0)
  }

  ghost predicate JamsHold(env: Env, good: Dwell) {
    forall length: u16, address :: length != 0 && JamChecks(env, length, address).Accepted? ==>
      good(length, JamChecks(env, length, address).address)
  }

  ghost predicate LoadsHold(env: Env, good: Dwell, acts: seq<Action>) {
    forall i :: 0 <= i < |acts| && acts[i].Load? ==> EntriesHold(good, CopyEntries(env, acts[i].tbl.entry))
  }

  // ----- the condition is enough

  lemma OnlyActiveTaken(s: Setup, c: Cursor, mem: Memory, now: nat, slot: nat, m: nat)
    requires SetupSized(s) && CursorSized(|s.entry|, c) && c.currentEntry < s.addrCount
    requires TakesAfter(s, c, mem, now, slot, m)
    ensures slot < s.addrCount
  {
  }

  /** A processed table with a right summary has nothing unreachable among its active entries. */
  lemma ActiveHold(good: Dwell, s: Setup, slot: nat)
    requires EntriesHold(good, s.entry) && Summarises(s) && s.rate > 0 && slot < s.addrCount
    ensures Holds(good, s.entry[slot])
  {
    if |s.entry| == 1 {
      assert DelaySum(s.entry, 1) == DelaySum(s.entry, 0) + s.entry[0].delay;
    }
  }

  lemma TakenHold(good: Dwell, t: Table, mem: Memory, now: nat)
    requires Sized(t) && EntriesHold(good, t.setup.entry) && Summarises(t.setup)
    ensures WakeTakesOnly(good, t, mem, now)
  {
    hide Iterate, EntriesHold, Summarises, TakesAfter;
    forall slot | 0 <= slot < |t.setup.entry| && Takes(t, mem, now, slot)
      ensures Holds(good, t.setup.entry[slot])
    {
      var m: nat :| TakesAfter(t.setup, Ticked(t.cursor), mem, now, slot, m);
      OnlyActiveTaken(t.setup, Ticked(t.cursor), mem, now, slot, m);
      ActiveHold(good, t.setup, slot);
    }
  }

  lemma PerformKeepsHold(env: Env, good: Dwell, mem: Memory, now: nat, s: Stream, a: Action)
    requires StreamSized(s) && ActionSized(Size(s), SignatureLength(s), a)
    requires JamsHold(env, good) && EntriesHold(good, s.local.setup.entry)
    requires a.Load? ==> EntriesHold(good, CopyEntries(env, a.tbl.entry))
    ensures EntriesHold(good, Perform(env, mem, now, s, a).local.setup.entry)
  {
    hide WakeupAny, Woken, CopyEntry;
    if a.Jam? && ValidId(a.entryId, Size(s)) {
      assert a.length != 0 && JamChecks(env, a.length, a.address).Accepted? ==>
          good(a.length, JamChecks(env, a.length, a.address).address);
    }
  }

  lemma {:induction false} HoldBefore(env: Env, good: Dwell, mem: Memory, from: nat, s: Stream,
                                      acts: seq<Action>, k: nat)
    requires StreamSized(s) && ActionsSized(Size(s), SignatureLength(s), acts) && LoadsHold(env, good, acts)
    requires JamsHold(env, good) && EntriesHold(good, s.local.setup.entry) && k <= |acts|
    ensures EntriesHold(good, Before(env, mem, from, s, acts, k).local.setup.entry)
    decreases k
  {
    hide Perform, EntriesHold, JamsHold;
    if k > 0 {
      var p := Before(env, mem, from, s, acts, k - 1);
      HoldBefore(env, good, mem, from, s, acts, k - 1);
      BeforeNext(env, mem, from, s, acts, k - 1, p);
      PerformKeepsHold(env, good, mem, from + Wakes(acts[..k]), p, acts[k - 1]);
    }
  }

  lemma HoldingRun(env: Env, good: Dwell, mem: Memory, from: nat, s: Stream, acts: seq<Action>)
    requires StreamSized(s) && ActionsSized(Size(s), SignatureLength(s), acts) && LoadsHold(env, good, acts)
    requires JamsHold(env, good) && EntriesHold(good, s.local.setup.entry)
    requires Summarises(s.local.setup) && LostJamsHarmless(env, mem, from, s, acts)
    ensures TakesOnly(env, good, mem, from, s, acts)
  {
    hide Exec, EntriesHold, JamsHold, WakeTakesOnly, Summarises, LostJamsHarmless, Wakes, LoadsHold;
    forall k | 0 <= k < |acts| && acts[k].Wake? && !Before(env, mem, from, s, acts, k).hung
      ensures WakeTakesOnly(good, Before(env, mem, from, s, acts, k).local, mem, from + Wakes(acts[..k + 1]))
    {
      HoldBefore(env, good, mem, from, s, acts, k);
      HarmlessSummarises(env, mem, from, s, acts, k);
      TakenHold(good, Before(env, mem, from, s, acts, k).local, mem, from + Wakes(acts[..k + 1]));
    }
  }

  // ----- a bad entry is taken after good Jams

  /** Good dwells before entry b, the last of them followed by a delay of one, and entry b not null. */
  ghost predicate Leads(entry: seq<ControlEntry>, b: nat) {
    && b < |entry|
    && entry[b].length != 0
    && forall i :: 0 <= i < b ==>
         0 < entry[i].length <= 4 && entry[i].delay == if i == b - 1 then 1 else 0
  }

  ghost predicate Started(s: Setup, b: nat) {
    SetupSized(s) && Processed(s) && b < s.addrCount && Leads(s.entry, b)
  }

  /** At entry b, due with the next wakeup. */
  predicate AtEntry(size: nat, b: nat, c: Cursor) {
    |c.data| == 4 * size && c.currentEntry == b && c.countdown == 1
  }

  lemma StepToEntry(s: Setup, b: nat, c: Cursor, mem: Memory, now: nat)
    requires Started(s, b) && CursorSized(|s.entry|, c)
    requires c.currentEntry < b && InBounds(c)
    ensures SetupSized(s) && b < s.addrCount
    ensures
      var r := Collect(s, c, mem, now);
      && r.Some? && CursorSized(|s.entry|, r.value.cursor) && InBounds(r.value.cursor)
      && r.value.cursor.currentEntry == c.currentEntry + 1
      && r.value.cursor.countdown == if c.currentEntry == b - 1 then 1 else 0
  {
  }

  lemma {:induction false} ReachesEntry(s: Setup, b: nat, c: Cursor, mem: Memory, now: nat, n: nat)
    requires Started(s, b) && CursorSized(|s.entry|, c)
    requires c.currentEntry < b && c.countdown == 0 && InBounds(c)
    requires n >= b - c.currentEntry
    ensures SetupSized(s) && b < s.addrCount
    ensures Iterate(s, c, mem, now, n).Some? && AtEntry(|s.entry|, b, Iterate(s, c, mem, now, n).value.cursor)
    decreases b - c.currentEntry
  {
    hide Collect, Started;
    StepToEntry(s, b, c, mem, now);
    var r := Collect(s, c, mem, now).value.cursor;
    if r.countdown == 0 {
      ReachesEntry(s, b, r, mem, now, n - 1);
    } else {
      assert Iterate(s, r, mem, now, n - 1) == Some(Step(r, []));
    }
  }

  lemma FirstWake(t: Table, b: nat, mem: Memory, now: nat)
    requires Started(t.setup, b) && 0 < b && CursorSized(|t.setup.entry|, t.cursor)
    requires t.cursor.countdown == 1 && t.cursor.currentEntry == 0 && t.cursor.pktOffset == 0
    ensures WakeupAny(t, mem, now).Some?
    ensures AtEntry(|t.setup.entry|, b, WakeupAny(t, mem, now).value.cursor)
  {
    hide Iterate;
    assert t.setup.entry[b - 1].delay == 1;
    ReachesEntry(t.setup, b, Ticked(t.cursor), mem, now, t.setup.addrCount);
  }

  lemma TakenWhenDue(t: Table, b: nat, mem: Memory, now: nat)
    requires Started(t.setup, b) && AtEntry(|t.setup.entry|, b, t.cursor)
    ensures Sized(t) && Takes(t, mem, now, b)
  {
    assert TakesAfter(t.setup, Ticked(t.cursor), mem, now, b, 0);
  }

  /** Jam good dwells into the first k entries. */
  function LeadJams(k: nat, b: nat, length: u16, address: SymAddr): (r: seq<Action>)
    requires k <= MAX_TABLE_SIZE
    ensures |r| == k && forall i :: 0 <= i < k ==> r[i] == LeadJam(i + 1, b, length, address)
  {
    if k == 0 then [] else LeadJams(k - 1, b, length, address) + [LeadJam(k, b, length, address)]
  }

  function LeadJam(k: nat, b: nat, length: u16, address: SymAddr): Action
    requires 0 < k <= MAX_TABLE_SIZE
  {
    Jam(k, length, if k == b then 1 else 0, address, true)
  }

  ghost predicate Led(was: seq<ControlEntry>, s: Setup, b: nat, k: nat, length: u16) {
    && |s.entry| == |was|
    && Summarises(s)
    && (forall i :: 0 <= i < k && i < |was| ==>
          s.entry[i].length == length && s.entry[i].delay == if i == b - 1 then 1 else 0)
    && (forall i :: k <= i < |was| ==> s.entry[i] == was[i])
  }

  lemma LedOn(was: seq<ControlEntry>, s: Setup, b: nat, k: nat, e: ControlEntry)
    requires 0 < k <= |was| <= MAX_TABLE_SIZE && Led(was, s, b, k - 1, e.length)
    requires e.delay == if k == b then 1 else 0
    ensures Led(was, Summarised(s.(entry := s.entry[k - 1 := e])), b, k, e.length)
  {
    hide Summarised, Summarises;
    SummaryIsRight(s.(entry := s.entry[k - 1 := e]));
  }

  lemma LeadJammed(env: Env, mem: Memory, now: nat, was: seq<ControlEntry>, p: Stream, b: nat, k: nat,
                   length: u16, address: SymAddr)
    requires StreamSized(p) && !p.hung && 0 < k <= |was| == Size(p) <= MAX_TABLE_SIZE
    requires length != 0 && JamChecks(env, length, address).Accepted?
    requires Led(was, p.local.setup, b, k - 1, length)
    ensures
      var r := Perform(env, mem, now, p, LeadJam(k, b, length, address));
      !r.hung && Led(was, r.local.setup, b, k, length)
  {
    hide Perform, Led, JamChecks;
    var delay: u16 := if k == b then 1 else 0;
    JamFills(env, mem, now, p, k, length, delay, address);
    LedOn(was, p.local.setup, b, k, Entry(length, delay, JamChecks(env, length, address).address));
  }

  lemma NothingLed(s: Setup, b: nat, length: u16)
    requires Summarises(s)
    ensures Led(s.entry, s, b, 0, length)
  {
  }

  lemma {:induction false} LedByJams(env: Env, mem: Memory, from: nat, s: Stream, b: nat, k: nat,
                                     length: u16, address: SymAddr, acts: seq<Action>)
    requires StreamSized(s) && !s.hung && Summarises(s.local.setup) && k <= Size(s) <= MAX_TABLE_SIZE
    requires length != 0 && JamChecks(env, length, address).Accepted?
    requires acts == LeadJams(k, b, length, address)
    ensures ActionsSized(Size(s), SignatureLength(s), acts)
    ensures !Exec(env, mem, from, s, acts).hung
    ensures Led(s.local.setup.entry, Exec(env, mem, from, s, acts).local.setup, b, k, length)
    decreases k
  {
    hide Perform, StreamSized, JamChecks, Led, Summarises;
    if k == 0 {
      NothingLed(s.local.setup, b, length);
    } else {
      var front := acts[..k - 1];
      assert front == LeadJams(k - 1, b, length, address);
      LedByJams(env, mem, from, s, b, k - 1, length, address, front);
      var p := Exec(env, mem, from, s, front);
      LeadJammed(env, mem, from + Wakes(acts), s.local.setup.entry, p, b, k, length, address);
    }
  }

  /** The Jams that make entry b the one to be taken. If it is the first and has no delay, the rate
      comes from the second. */
  function ExposingJams(entry: seq<ControlEntry>, b: nat, length: u16, address: SymAddr): (r: seq<Action>)
    requires b < |entry| <= MAX_TABLE_SIZE
    ensures forall i :: 0 <= i < |r| ==> r[i].Jam? && r[i].ok
  {
    if b == 0 && entry[0].delay == 0 then [Jam(2, length, 1, address, true)] else LeadJams(b, b, length, address)
  }

  lemma ExposedByJams(env: Env, mem: Memory, from: nat, s: Stream, b: nat, length: u16, address: SymAddr,
                      jams: seq<Action>, p: Stream)
    requires StreamSized(s) && !s.hung && Summarises(s.local.setup)
    requires b < Size(s) && s.local.setup.entry[b].length != 0
    requires Size(s) == 1 ==> s.local.setup.entry[b].delay != 0
    requires length != 0 && JamChecks(env, length, address).Accepted?
    requires jams == ExposingJams(s.local.setup.entry, b, length, address)
    requires ActionsSized(Size(s), SignatureLength(s), jams)
    requires p == Exec(env, mem, from, s, jams)
    ensures !p.hung && Summarises(p.local.setup)
    ensures Leads(p.local.setup.entry, b) && p.local.setup.entry[b] == s.local.setup.entry[b]
    ensures p.local.setup.rate > 0 && b < p.local.setup.addrCount
  {
    hide Perform, StreamSized, Exec, Leads, Led;
    SizeBound(s);
    var entry := s.local.setup.entry;
    if b == 0 && entry[0].delay == 0 {
      SecondJammed(env, mem, from, s, length, address, p);
      DelayGivesRate(p.local.setup, 1);
      NothingLeads(p.local.setup.entry);
    } else {
      LedByJams(env, mem, from, s, b, b, length, address, jams);
      LedLeads(entry, p.local.setup, b, length);
    }
  }

  lemma SizeBound(s: Stream)
    requires StreamSized(s)
    ensures 1 <= Size(s) <= MAX_TABLE_SIZE
  {
  }

  lemma NothingLeads(entry: seq<ControlEntry>)
    requires 0 < |entry| && entry[0].length != 0
    ensures Leads(entry, 0)
  {
  }

  lemma LedLeads(was: seq<ControlEntry>, s: Setup, b: nat, length: u16)
    requires b < |was| && Led(was, s, b, b, length) && 0 < length <= 4
    requires was[b].length != 0 && (b == 0 ==> was[0].delay > 0)
    ensures Leads(s.entry, b) && s.entry[b] == was[b] && Summarises(s)
    ensures s.rate > 0 && b < s.addrCount
  {
    hide Summarises;
    DelayGivesRate(s, if b == 0 then 0 else b - 1);
  }

  lemma DelayGivesRate(s: Setup, j: nat)
    requires Summarises(s) && j < |s.entry| && s.entry[j].delay > 0
    requires forall i :: 0 <= i <= j ==> s.entry[i].length != 0
    ensures s.addrCount > j && s.rate > 0
    ensures j + 1 < |s.entry| && s.entry[j + 1].length != 0 ==> s.addrCount > j + 1
  {
    assert ActiveCount(s.entry) > j;
    DelaySumPositive(s.entry, ActiveCount(s.entry));
  }

  lemma SecondJammed(env: Env, mem: Memory, from: nat, s: Stream, length: u16, address: SymAddr, p: Stream)
    requires StreamSized(s) && !s.hung && Size(s) > 1
    requires length != 0 && JamChecks(env, length, address).Accepted?
    requires ActionsSized(Size(s), SignatureLength(s), [Jam(2, length, 1, address, true)])
    requires p == Exec(env, mem, from, s, [Jam(2, length, 1, address, true)])
    ensures !p.hung && Summarises(p.local.setup) && |p.local.setup.entry| == Size(s)
    ensures p.local.setup.entry[0] == s.local.setup.entry[0]
    ensures p.local.setup.entry[1].length == length && p.local.setup.entry[1].delay == 1
  {
    hide Perform, JamChecks, Summarised, Summarises;
    var acts := [Jam(2, length, 1, address, true)];
    assert acts[..|acts| - 1] == [];
    assert Exec(env, mem, from, s, acts[..|acts| - 1]) == s;
    JamFills(env, mem, from + Wakes(acts), s, 2, length, 1, address);
    SummaryIsRight(s.local.setup.(entry :=
      s.local.setup.entry[1 := Entry(length, 1, JamChecks(env, length, address).address)]));
  }

  /** The Jams, a Start, and the wakeup or two up to entry b. */
  function ExposingRun(entry: seq<ControlEntry>, b: nat, length: u16, address: SymAddr): seq<Action>
    requires b < |entry| <= MAX_TABLE_SIZE
  {
    ExposingJams(entry, b, length, address) + [Start(true), Wake, Wake]
  }

  lemma ExposingRunOk(env: Env, good: Dwell, mem: Memory, from: nat, s: Stream, b: nat, length: u16, address: SymAddr,
                      acts: seq<Action>)
    returns (m: nat)
    requires StreamSized(s) && b < Size(s)
    requires acts == ExposingRun(s.local.setup.entry, b, length, address)
    ensures ActionsSized(Size(s), SignatureLength(s), acts) && LoadsHold(env, good, acts)
    ensures LostJamsHarmless(env, mem, from, s, acts)
    ensures m + 3 == |acts| && acts[m] == Start(true) && acts[m + 1] == Wake && acts[m + 2] == Wake
    ensures acts[..m] == ExposingJams(s.local.setup.entry, b, length, address)
    ensures ActionsSized(Size(s), SignatureLength(s), acts[..m])
  {
    hide Exec;
    m := |ExposingJams(s.local.setup.entry, b, length, address)|;
    forall i | 0 <= i < |acts| ensures !acts[i].Load? && !acts[i].SetSignature? && (acts[i].Jam? ==> acts[i].ok) {
      if i >= m {
        assert acts[i] == [Start(true), Wake, Wake][i - m];
      }
    }
  }

  /** A Start makes such a table ready to take entry b. */
  lemma StartLeads(p: Stream, b: nat)
    requires StreamSized(p) && Leads(p.local.setup.entry, b)
    requires p.local.setup.rate > 0 && b < p.local.setup.addrCount
    ensures
      var r := StartStream(p, true);
      && StreamSized(r) && Started(r.local.setup, b) && r.local.setup.entry == p.local.setup.entry
      && r.local.cursor.countdown == 1 && r.local.cursor.currentEntry == 0 && r.local.cursor.pktOffset == 0
  {
  }

  /** The run takes entry b. */
  lemma BadEntryTaken(env: Env, good: Dwell, mem: Memory, from: nat, s: Stream, b: nat, length: u16, address: SymAddr)
    returns (acts: seq<Action>)
    requires StreamSized(s) && !s.hung && Summarises(s.local.setup) && JamsHold(env, good)
    requires length != 0 && JamChecks(env, length, address).Accepted?
    requires b < Size(s) && s.local.setup.entry[b].length != 0 && !Holds(good, s.local.setup.entry[b])
    requires Size(s) == 1 ==> s.local.setup.entry[b].delay != 0
    ensures ActionsSized(Size(s), SignatureLength(s), acts) && LoadsHold(env, good, acts)
    ensures LostJamsHarmless(env, mem, from, s, acts)
    ensures !TakesOnly(env, good, mem, from, s, acts)
  {
    hide Exec, JamsHold, JamChecks, Summarises, Leads, LostJamsHarmless, Started, LoadsHold, Takes, WakeStream;
    acts := ExposingRun(s.local.setup.entry, b, length, address);
    var m := ExposingRunOk(env, good, mem, from, s, b, length, address, acts);
    var p := Before(env, mem, from, s, acts, m);
    ExposedByJams(env, mem, from, s, b, length, address, acts[..m], p);
    BeforeNext(env, mem, from, s, acts, m, p);
    StartLeads(p, b);
    var q := Before(env, mem, from, s, acts, m + 1);
    assert q == StartStream(p, true);
    var k := TakenAtWake(env, mem, from, s, b, acts, m + 1, q);
    var t := Before(env, mem, from, s, acts, k);
    assert Takes(t.local, mem, from + Wakes(acts[..k + 1]), b) && !Holds(good, t.local.setup.entry[b]);
    assert !WakeTakesOnly(good, t.local, mem, from + Wakes(acts[..k + 1]));
  }

  lemma TakenAtWake(env: Env, mem: Memory, from: nat, s: Stream, b: nat, acts: seq<Action>, m: nat, p: Stream)
    returns (k: nat)
    requires StreamSized(s) && ActionsSized(Size(s), SignatureLength(s), acts)
    requires m + 2 == |acts| && acts[m] == Wake && acts[m + 1] == Wake
    requires p == Before(env, mem, from, s, acts, m) && !p.hung && Started(p.local.setup, b)
    requires p.local.cursor.countdown == 1 && p.local.cursor.currentEntry == 0 && p.local.cursor.pktOffset == 0
    ensures k < |acts| && acts[k].Wake?
    ensures
      var t := Before(env, mem, from, s, acts, k);
      !t.hung && t.local.setup == p.local.setup && Takes(t.local, mem, from + Wakes(acts[..k + 1]), b)
  {
    hide Exec, Started, Takes, WakeupAny, Wakes;
    if b == 0 {
      k := m;
      TakenWhenDue(p.local, b, mem, from + Wakes(acts[..k + 1]));
    } else {
      k := m + 1;
      FirstWake(p.local, b, mem, from + Wakes(acts[..m + 1]));
      BeforeNext(env, mem, from, s, acts, m, p);
      var t := Before(env, mem, from, s, acts, k);
      assert t.local == Table(p.local.setup, WakeupAny(p.local, mem, from + Wakes(acts[..m + 1])).value.cursor);
      TakenWhenDue(t.local, b, mem, from + Wakes(acts[..k + 1]));
    }
  }

  /** If nothing but what has the property is loaded, and no lost Jam does harm, nothing else is taken. */
  ghost predicate RunHolds(env: Env, good: Dwell, mem: Memory, from: nat, s: Stream, acts: seq<Action>)
    requires StreamSized(s)
  {
    ActionsSized(Size(s), SignatureLength(s), acts) && LoadsHold(env, good, acts) ==>
      LostJamsHarmless(env, mem, from, s, acts) ==> TakesOnly(env, good, mem, from, s, acts)
  }

  /** What can be taken, exactly. For a property that all accepted Jams have: in all runs - whatever is
      jammed, started, stopped, or loaded with entries that have it, whatever memory answers, and as
      long as no lost Jam does harm - every entry taken has it if and only if every entry has it, or is
      null, or is alone and has no delay. The platform is assumed to have some address worth jamming. */
  lemma TakesOnlyIff(env: Env, good: Dwell, from: nat, s: Stream, length: u16, address: SymAddr)
    requires StreamSized(s) && !s.hung && Summarises(s.local.setup) && JamsHold(env, good)
    requires length != 0 && JamChecks(env, length, address).Accepted?
    ensures (forall mem: Memory, acts :: RunHolds(env, good, mem, from, s, acts))
            <==> EntriesHold(good, s.local.setup.entry)
  {
    hide TakesOnly, LoadsHold, JamsHold, JamChecks, Summarises, LostJamsHarmless;
    if EntriesHold(good, s.local.setup.entry) {
      forall mem: Memory, acts ensures RunHolds(env, good, mem, from, s, acts) {
        if ActionsSized(Size(s), SignatureLength(s), acts) && LoadsHold(env, good, acts) &&
           LostJamsHarmless(env, mem, from, s, acts)
        {
          HoldingRun(env, good, mem, from, s, acts);
        }
      }
    } else {
      var entry := s.local.setup.entry;
      var b :| 0 <= b < |entry| && entry[b].length != 0 && !good(entry[b].length, entry[b].address) &&
               !(|entry| == 1 && entry[b].delay == 0);
      var acts := BadEntryTaken(env, good, _ => None, from, s, b, length, address);
      assert !RunHolds(env, good, _ => None, from, s, acts);
    }
  }

  // ----- the trace

  /** A sample of a dwell with the property, its code the one for its length. */
  predicate SampleHolds(good: Dwell, e: Event) {
    e.Sample? ==>
      && e.length != 0 && good(e.length, e.address)
      && (e.code == INVALID_LENGTH <==> !RealLength(e.length, e.address))
  }

  ghost predicate TraceHolds(good: Dwell, trace: seq<Event>) {
    forall i :: 0 <= i < |trace| ==> SampleHolds(good, trace[i])
  }

  lemma CollectTraced(good: Dwell, s: Setup, c: Cursor, mem: Memory, now: nat)
    requires SetupSized(s) && CursorSized(|s.entry|, c) && c.currentEntry < s.addrCount
    requires Holds(good, s.entry[c.currentEntry]) && Collect(s, c, mem, now).Some?
    ensures TraceHolds(good, Collect(s, c, mem, now).value.events)
  {
    assert SampleHolds(good, SampleOf(s, mem, c.currentEntry, now));
  }

  lemma TakesLater(s: Setup, c: Cursor, mem: Memory, now: nat, slot: nat, m: nat)
    requires SetupSized(s) && CursorSized(|s.entry|, c) && c.currentEntry < s.addrCount
    requires c.countdown == 0 && Collect(s, c, mem, now).Some?
    requires TakesAfter(s, Collect(s, c, mem, now).value.cursor, mem, now, slot, m)
    ensures TakesAfter(s, c, mem, now, slot, m + 1)
  {
    hide Collect;
  }

  lemma {:induction false} IterateTraced(good: Dwell, s: Setup, c: Cursor, mem: Memory, now: nat, n: nat)
    requires SetupSized(s) && CursorSized(|s.entry|, c) && c.currentEntry < s.addrCount
    requires forall slot, m: nat :: 0 <= slot < |s.entry| && TakesAfter(s, c, mem, now, slot, m) ==>
               Holds(good, s.entry[slot])
    requires Iterate(s, c, mem, now, n).Some?
    ensures TraceHolds(good, Iterate(s, c, mem, now, n).value.events)
    decreases n
  {
    hide Collect, Holds, TakesAfter, SampleHolds;
    if n > 0 && c.countdown == 0 {
      TakesFirst(s, c, mem, now);
      CollectTraced(good, s, c, mem, now);
      var r := Collect(s, c, mem, now).value.cursor;
      forall slot, m: nat | 0 <= slot < |s.entry| && TakesAfter(s, r, mem, now, slot, m)
        ensures Holds(good, s.entry[slot])
      {
        TakesLater(s, c, mem, now, slot, m);
      }
      IterateTraced(good, s, r, mem, now, n - 1);
    }
  }

  lemma TakesFirst(s: Setup, c: Cursor, mem: Memory, now: nat)
    requires SetupSized(s) && CursorSized(|s.entry|, c) && c.currentEntry < s.addrCount && c.countdown == 0
    ensures TakesAfter(s, c, mem, now, c.currentEntry, 0)
  {
  }

  lemma WakeTraced(good: Dwell, s: Stream, mem: Memory, now: nat)
    requires StreamSized(s) && WakeTakesOnly(good, s.local, mem, now) && TraceHolds(good, s.trace)
    ensures TraceHolds(good, WakeStream(s, mem, now).trace)
  {
    hide Iterate, Holds, TakesAfter, SampleHolds;
    var (t, c) := (s.local, Ticked(s.local.cursor));
    var w := WakeupAny(t, mem, now);
    if w.Some? && Processed(t.setup) && t.cursor.currentEntry < t.setup.addrCount {
      IterateTraced(good, t.setup, c, mem, now, t.setup.addrCount);
    }
    if w.Some? && Overrun(t) {
      SendHolds(good, now, PacketOf(t.setup, t.cursor.data));
    }
  }

  lemma SendHolds(good: Dwell, now: nat, p: Packet)
    ensures TraceHolds(good, [Send(now, p)])
  {
  }

  lemma {:induction false} TracedBefore(env: Env, good: Dwell, mem: Memory, from: nat, s: Stream,
                                        acts: seq<Action>, k: nat)
    requires StreamSized(s) && ActionsSized(Size(s), SignatureLength(s), acts) && k <= |acts|
    requires TakesOnly(env, good, mem, from, s, acts) && TraceHolds(good, s.trace)
    ensures TraceHolds(good, Before(env, mem, from, s, acts, k).trace)
    decreases k
  {
    hide TraceHolds, WakeTakesOnly, Perform;
    if k > 0 {
      var p := Before(env, mem, from, s, acts, k - 1);
      TracedBefore(env, good, mem, from, s, acts, k - 1);
      BeforeNext(env, mem, from, s, acts, k - 1, p);
      PerformTraced(env, good, mem, from + Wakes(acts[..k]), p, acts[k - 1]);
    }
  }

  lemma PerformTraced(env: Env, good: Dwell, mem: Memory, now: nat, s: Stream, a: Action)
    requires StreamSized(s) && ActionSized(Size(s), SignatureLength(s), a) && TraceHolds(good, s.trace)
    requires a.Wake? && !s.hung ==> WakeTakesOnly(good, s.local, mem, now)
    ensures TraceHolds(good, Perform(env, mem, now, s, a).trace)
  {
    hide TraceHolds, WakeTakesOnly, WakeStream;
    if a.Wake? && !s.hung {
      WakeTraced(good, s, mem, now);
    }
  }

  // ----- the branch for invalid lengths

  /** The low byte of the length, which is what the engine looks at, is one it can read. */
  predicate RealLength(length: nat, address: nat) {
    var numBytes := length % 0x100;
    numBytes == 1 || numBytes == 2 || numBytes == 4
  }

  lemma JamsAreReal(env: Env)
    ensures JamsHold(env, RealLength)
  {
  }

  /** The engine's branch for an invalid length is dead in all runs if and only if the low byte of every
      non-null entry's length is 1, 2 or 4 (but for a lone entry without a delay). */
  lemma InvalidLengthIff(env: Env, from: nat, s: Stream, length: u16, address: SymAddr)
    requires StreamSized(s) && !s.hung && Summarises(s.local.setup)
    requires length != 0 && JamChecks(env, length, address).Accepted?
    ensures (forall mem: Memory, acts :: RunHolds(env, RealLength, mem, from, s, acts))
            <==> EntriesHold(RealLength, s.local.setup.entry)
  {
    JamsAreReal(env);
    TakesOnlyIff(env, RealLength, from, s, length, address);
  }

  /** Every sample is of a length that can be read, and none has the code for an invalid one. */
  ghost predicate RealSamples(trace: seq<Event>) {
    forall i :: 0 <= i < |trace| && trace[i].Sample? ==> trace[i].length != 0 && trace[i].code != INVALID_LENGTH
  }

  lemma SamplesAreReal(env: Env, mem: Memory, from: nat, s: Stream, acts: seq<Action>)
    requires StreamSized(s) && ActionsSized(Size(s), SignatureLength(s), acts)
    requires Summarises(s.local.setup) && LostJamsHarmless(env, mem, from, s, acts)
    requires EntriesHold(RealLength, s.local.setup.entry) && LoadsHold(env, RealLength, acts)
    requires TraceHolds(RealLength, s.trace)
    ensures RealSamples(Exec(env, mem, from, s, acts).trace)
  {
    hide Exec, Summarises, LostJamsHarmless, EntriesHold, LoadsHold, TakesOnly;
    JamsAreReal(env);
    HoldingRun(env, RealLength, mem, from, s, acts);
    TracedBefore(env, RealLength, mem, from, s, acts, |acts|);
    assert acts[..|acts|] == acts;
  }

  // ----- memory reads

  /** Of a good length, aligned, and in a valid range. */
  function Readable(env: Env): Dwell {
    (length: nat, address: nat) => GoodRead(env, address, length)
  }

  lemma JamsAreReadable(env: Env)
    ensures JamsHold(env, Readable(env))
  {
  }

  /** In all runs every read is of a good dwell if and only if every entry is null or good (but for a
      lone entry without a delay). */
  lemma ReadsGoodIff(env: Env, from: nat, s: Stream, length: u16, address: SymAddr)
    requires StreamSized(s) && !s.hung && Summarises(s.local.setup)
    requires length != 0 && JamChecks(env, length, address).Accepted?
    ensures (forall mem: Memory, acts :: RunHolds(env, Readable(env), mem, from, s, acts))
            <==> EntriesHold(Readable(env), s.local.setup.entry)
  {
    JamsAreReadable(env);
    TakesOnlyIff(env, Readable(env), from, s, length, address);
  }

  // ----- accepted loads

  /** A lone entry of an accepted load is active, so validation has looked at it. */
  lemma AcceptedReadable(env: Env, tbl: LoadTable)
    requires Acceptable(env, tbl) && |tbl.entry| <= MAX_TABLE_SIZE
    ensures EntriesHold(Readable(env), CopyEntries(env, tbl.entry)) <==> Protected(env, CopyOf(env, tbl))
  {
    var entry := CopyEntries(env, tbl.entry);
    assert CopyOf(env, tbl).entry == entry;
    if |entry| == 1 && entry[0].length != 0 {
      assert GoodEntry(env, tbl.entry[0]);
      assert entry[0] == CopyEntry(env, tbl.entry, 0);
    }
    forall i | 0 <= i < |entry|
      ensures Readable(env)(entry[i].length, entry[i].address) == GoodRead(env, entry[i].address, entry[i].length)
    {
    }
  }

  /** The lengths of an accepted load, all that can ever be active. */
  predicate LengthsReal(tbl: LoadTable) {
    forall i :: 0 <= i < |tbl.entry| ==> tbl.entry[i].length == 0 || RealLength(tbl.entry[i].length, 0)
  }

  lemma AcceptedReal(env: Env, tbl: LoadTable)
    requires Acceptable(env, tbl)
    ensures EntriesHold(RealLength, CopyEntries(env, tbl.entry)) <==> LengthsReal(tbl)
  {
    var entry := CopyEntries(env, tbl.entry);
    if |entry| == 1 && entry[0].length != 0 {
      assert GoodEntry(env, tbl.entry[0]);
    }
    forall i | 0 <= i < |entry| ensures entry[i].length == tbl.entry[i].length {
      assert entry[i] == CopyEntry(env, tbl.entry, i);
    }
    forall i | 0 <= i < |entry|
      ensures RealLength(entry[i].length, entry[i].address) == RealLength(entry[i].length, 0)
    {
    }
  }

  /** For an accepted load that has just been copied in: the branch for invalid lengths is dead in all
      runs if and only if the low byte of every non-null entry's length is 1, 2 or 4. */
  lemma LoadInvalidLengthIff(env: Env, from: nat, s: Stream, tbl: LoadTable, length: u16, address: SymAddr)
    requires StreamSized(s) && !s.hung && Acceptable(env, tbl)
    requires |tbl.entry| == Size(s) && |tbl.signature| == SignatureLength(s)
    requires length != 0 && JamChecks(env, length, address).Accepted?
    ensures
      var r := LoadStream(env, s, tbl, true);
      StreamSized(r) &&
      ((forall mem: Memory, acts :: RunHolds(env, RealLength, mem, from, r, acts)) <==> LengthsReal(tbl))
  {
    hide RunHolds, JamChecks, Summarises, Acceptable, EntriesHold, LengthsReal;
    LoadOk(env, s, tbl, true);
    CopySummarises(env, tbl);
    AcceptedReal(env, tbl);
    InvalidLengthIff(env, from, LoadStream(env, s, tbl, true), length, address);
  }

  /** For an accepted load that has just been copied in: in all runs every read is good if and only if
      every entry, with the address the copy gave it, is null or good. */
  lemma LoadReadsGoodIff(env: Env, from: nat, s: Stream, tbl: LoadTable, length: u16, address: SymAddr)
    requires StreamSized(s) && !s.hung && Acceptable(env, tbl)
    requires |tbl.entry| == Size(s) && |tbl.signature| == SignatureLength(s)
    requires length != 0 && JamChecks(env, length, address).Accepted?
    ensures
      var r := LoadStream(env, s, tbl, true);
      && StreamSized(r)
      && ((forall mem: Memory, acts :: RunHolds(env, Readable(env), mem, from, r, acts))
          <==> Protected(env, CopyOf(env, tbl)))
  {
    hide RunHolds, JamChecks, Summarises, Acceptable, EntriesHold;
    LoadOk(env, s, tbl, true);
    CopySummarises(env, tbl);
    AcceptedReadable(env, tbl);
    ReadsGoodIff(env, from, LoadStream(env, s, tbl, true), length, address);
  }
}
