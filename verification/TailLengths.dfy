/** Which loads keep every write inside a packet's data area, whatever is jammed afterwards. A length
    other than 1, 2 or 4 is not read, but the write offset moves on by its low byte all the same. */
module TailLengths {
  import opened Types
  import opened Summary
  import opened Engine
  import opened AnyTable
  import opened Validation
  import opened Commands
  import opened Runs
  import opened LoadContract

  /** No entry but the last moves the write offset by more than its four bytes of the data area. */
  ghost predicate LengthsFit<A>(entry: seq<Entry<A>>) {
    forall i :: 0 <= i < |entry| - 1 ==> entry[i].length % 0x100 <= 4
  }

  /** The loads of a run have lengths that fit, and an enable flag that validation accepts. */
  ghost predicate FitLoads(acts: seq<Action>) {
    forall i :: 0 <= i < |acts| && acts[i].Load? ==> LengthsFit(acts[i].tbl.entry) && FlagOk(acts[i].tbl)
  }

  /** The offset is in bounds, or will be put back before the table is looked at again. */
  predicate Settled(t: Table) {
    t.setup.enabled != ENABLED || InBounds(t.cursor)
  }

  /** No pass of any wakeup of a run writes outside the data area. */
  ghost predicate WritesInside(env: Env, mem: Memory, from: nat, s: Stream, acts: seq<Action>)
    requires StreamSized(s) && ActionsSized(Size(s), SignatureLength(s), acts)
  {
    forall k :: 0 <= k < |acts| && acts[k].Wake? && !Before(env, mem, from, s, acts, k).hung ==>
      !Overwrites(Before(env, mem, from, s, acts, k).local, mem, from + Wakes(acts[..k + 1]))
  }

  // ----- fitting lengths are enough

  lemma FitActive(s: Setup)
    requires s.addrCount <= |s.entry| && LengthsFit(s.entry)
    ensures ActiveFit(s)
  {
  }

  lemma WakeKeepsFit(s: Stream, mem: Memory, now: nat)
    requires StreamSized(s) && LengthsFit(s.local.setup.entry) && Settled(s.local)
    ensures WakeStream(s, mem, now).local.setup == s.local.setup && Settled(WakeStream(s, mem, now).local)
    ensures !Overwrites(s.local, mem, now)
    ensures WakeupAny(s.local, mem, now).None? <==> Hangs(s.local)
  {
    hide Iterate, LengthsFit;
    FitActive(s.local.setup);
    if InBounds(s.local.cursor) {
      WakeupFits(s.local, mem, now);
    }
  }

  lemma PerformKeepsFit(env: Env, mem: Memory, now: nat, s: Stream, a: Action)
    requires StreamSized(s) && ActionSized(Size(s), SignatureLength(s), a)
    requires LengthsFit(s.local.setup.entry) && Settled(s.local)
    requires a.Load? ==> LengthsFit(a.tbl.entry) && FlagOk(a.tbl)
    ensures LengthsFit(Perform(env, mem, now, s, a).local.setup.entry)
    ensures Settled(Perform(env, mem, now, s, a).local)
  {
    hide WakeStream, Overwrites;
    if a.Wake? && !s.hung {
      WakeKeepsFit(s, mem, now);
    }
  }

  lemma {:induction false} FitBefore(env: Env, mem: Memory, from: nat, s: Stream, acts: seq<Action>, k: nat)
    requires StreamSized(s) && ActionsSized(Size(s), SignatureLength(s), acts) && FitLoads(acts)
    requires LengthsFit(s.local.setup.entry) && Settled(s.local) && k <= |acts|
    ensures LengthsFit(Before(env, mem, from, s, acts, k).local.setup.entry)
    ensures Settled(Before(env, mem, from, s, acts, k).local)
    decreases k
  {
    hide Perform, LengthsFit, Settled, Exec;
    if k == 0 {
      NothingYet(env, mem, from, s, acts);
    } else {
      var p := Before(env, mem, from, s, acts, k - 1);
      FitBefore(env, mem, from, s, acts, k - 1);
      BeforeNext(env, mem, from, s, acts, k - 1, p);
      PerformKeepsFit(env, mem, from + Wakes(acts[..k]), p, acts[k - 1]);
    }
  }

  lemma NothingYet(env: Env, mem: Memory, from: nat, s: Stream, acts: seq<Action>)
    requires StreamSized(s) && ActionsSized(Size(s), SignatureLength(s), acts)
    ensures Before(env, mem, from, s, acts, 0) == s
  {
  }

  lemma FitStaysInside(env: Env, mem: Memory, from: nat, s: Stream, acts: seq<Action>)
    requires StreamSized(s) && ActionsSized(Size(s), SignatureLength(s), acts) && FitLoads(acts)
    requires LengthsFit(s.local.setup.entry) && Settled(s.local)
    ensures WritesInside(env, mem, from, s, acts)
  {
    hide Exec, Overwrites, LengthsFit, Settled, Wakes;
    forall k | 0 <= k < |acts| && acts[k].Wake? && !Before(env, mem, from, s, acts, k).hung
      ensures !Overwrites(Before(env, mem, from, s, acts, k).local, mem, from + Wakes(acts[..k + 1]))
    {
      FitBefore(env, mem, from, s, acts, k);
      WakeKeepsFit(Before(env, mem, from, s, acts, k), mem, from + Wakes(acts[..k + 1]));
    }
  }

  // ----- a length that does not fit is exposed by good Jams alone

  /** Every read succeeds. */
  function Answers(): Memory {
    (_: ReadRequest) => Some([0, 0, 0, 0])
  }

  /** Four-byte dwells everywhere but at b, all but the last without a delay. */
  ghost predicate Dwells(entry: seq<ControlEntry>, b: nat, k: nat, n: nat)
    requires k <= |entry|
  {
    forall i :: 0 <= i < k && i != b ==> entry[i].length == 4 && entry[i].delay == if i == n - 1 then 1 else 0
  }

  /** A started table of such dwells around an entry that takes too much. */
  ghost predicate Primed(s: Setup, b: nat) {
    && SetupSized(s)
    && Processed(s)
    && s.addrCount == |s.entry|
    && b < |s.entry| - 1
    && s.entry[b].length % 0x100 > 4
    && Dwells(s.entry, b, |s.entry|, |s.entry|)
  }

  /** Past entry b the offset is too far on, and some later dwell is written outside. */
  lemma {:induction false} LeavesArea(s: Setup, b: nat, c: Cursor, now: nat)
    requires Primed(s, b) && CursorSized(|s.entry|, c)
    requires b < c.currentEntry && c.countdown == 0
    requires c.pktOffset == 4 * (c.currentEntry - 1) + s.entry[b].length % 0x100
    ensures Iterate(s, c, Answers(), now, |s.entry| - c.currentEntry).None?
    decreases |s.entry| - c.currentEntry
  {
    var r := Collect(s, c, Answers(), now);
    if r.Some? {
      LeavesArea(s, b, r.value.cursor, now);
    }
  }

  /** Up to entry b the offset is right. Without a delay there the same wakeup goes on and leaves the
      area; with one it stops behind entry b. */
  lemma {:induction false} ReachesEntry(s: Setup, b: nat, c: Cursor, now: nat, n: nat)
    requires Primed(s, b) && CursorSized(|s.entry|, c)
    requires c.currentEntry <= b && c.countdown == 0 && c.pktOffset == 4 * c.currentEntry
    requires n >= |s.entry| - c.currentEntry
    ensures s.entry[b].delay == 0 ==> Iterate(s, c, Answers(), now, |s.entry| - c.currentEntry).None?
    ensures s.entry[b].delay != 0 ==>
              && Iterate(s, c, Answers(), now, n).Some?
              && PastEntry(s, b, Iterate(s, c, Answers(), now, n).value.cursor, s.entry[b].delay)
    decreases b - c.currentEntry
  {
    hide Collect, Primed;
    StepBefore(s, b, c, now);
    var r := Collect(s, c, Answers(), now).value.cursor;
    if c.currentEntry < b {
      ReachesEntry(s, b, r, now, n - 1);
    } else if s.entry[b].delay == 0 {
      LeavesArea(s, b, r, now);
    } else {
      assert Iterate(s, r, Answers(), now, n - 1) == Some(Step(r, []));
    }
  }

  lemma StepBefore(s: Setup, b: nat, c: Cursor, now: nat)
    requires Primed(s, b) && CursorSized(|s.entry|, c)
    requires c.currentEntry <= b && c.pktOffset == 4 * c.currentEntry
    ensures SetupSized(s) && b < |s.entry| - 1 && s.addrCount == |s.entry|
    ensures
      var r := Collect(s, c, Answers(), now);
      && r.Some?
      && CursorSized(|s.entry|, r.value.cursor)
      && r.value.cursor.currentEntry == c.currentEntry + 1
      && r.value.cursor.countdown == (if c.currentEntry < b then 0 else s.entry[b].delay)
      && r.value.cursor.pktOffset == 4 * c.currentEntry + (if c.currentEntry < b then 4 else s.entry[b].length % 0x100)
  {
  }

  /** Waiting behind entry b. */
  ghost predicate PastEntry(s: Setup, b: nat, c: Cursor, countdown: nat)
    requires b < |s.entry|
  {
    && CursorSized(|s.entry|, c)
    && c.currentEntry == b + 1 && c.countdown == countdown
    && c.pktOffset == 4 * b + s.entry[b].length % 0x100
  }

  lemma PrimedHasDelay(s: Setup, b: nat)
    requires Primed(s, b)
    ensures HasDelay(s)
  {
    assert s.entry[|s.entry| - 1].delay == 1;
  }

  lemma FirstWake(t: Table, b: nat, now: nat)
    requires Primed(t.setup, b) && CursorSized(|t.setup.entry|, t.cursor)
    requires t.cursor.countdown == 1 && t.cursor.currentEntry == 0 && t.cursor.pktOffset == 0
    ensures t.setup.entry[b].delay == 0 ==> Overwrites(t, Answers(), now)
    ensures t.setup.entry[b].delay != 0 ==>
              && WakeupAny(t, Answers(), now).Some?
              && PastEntry(t.setup, b, WakeupAny(t, Answers(), now).value.cursor, t.setup.entry[b].delay)
  {
    hide Iterate;
    PrimedHasDelay(t.setup, b);
    ReachesEntry(t.setup, b, Ticked(t.cursor), now, |t.setup.entry|);
  }

  lemma LaterWake(t: Table, b: nat, countdown: nat, now: nat)
    requires Primed(t.setup, b) && PastEntry(t.setup, b, t.cursor, countdown) && countdown > 0
    ensures countdown == 1 ==> Overwrites(t, Answers(), now)
    ensures countdown > 1 ==>
              && WakeupAny(t, Answers(), now).Some?
              && PastEntry(t.setup, b, WakeupAny(t, Answers(), now).value.cursor, countdown - 1)
  {
    PrimedHasDelay(t.setup, b);
    if countdown == 1 {
      hide Iterate;
      LeavesArea(t.setup, b, Ticked(t.cursor), now);
    }
  }

  /** Good Jams into the first k entries but entry b. */
  function OtherJams(k: nat, b: nat, n: nat, address: SymAddr): (r: seq<Action>)
    requires k <= n <= MAX_TABLE_SIZE
    ensures forall i :: 0 <= i < |r| ==> r[i].Jam?
  {
    if k == 0 then []
    else OtherJams(k - 1, b, n, address) + (if k - 1 == b then [] else [OtherJam(k, n, address)])
  }

  function OtherJam(k: nat, n: nat, address: SymAddr): Action
    requires 0 < k <= n <= MAX_TABLE_SIZE
  {
    Jam(k, 4, if k == n then 1 else 0, address, true)
  }

  /** What the Jams have done. */
  ghost predicate Surrounded(was: seq<ControlEntry>, s: Setup, b: nat, k: nat)
    requires b < |was| && k <= |was|
  {
    && |s.entry| == |was|
    && s.entry[b] == was[b]
    && Dwells(s.entry, b, k, |was|)
    && (k > 0 && k - 1 != b ==> Summarises(s))
  }

  lemma SurroundedOn(was: seq<ControlEntry>, s: Setup, b: nat, k: nat, address: nat)
    requires b < |was| <= MAX_TABLE_SIZE && 0 < k <= |was| && k - 1 != b
    requires Surrounded(was, s, b, k - 1)
    ensures
      var e := Entry(4, if k == |was| then 1 else 0, address);
      Surrounded(was, Summarised(s.(entry := s.entry[k - 1 := e])), b, k)
  {
    hide Summarised;
    SummaryIsRight(s.(entry := s.entry[k - 1 := Entry(4, if k == |was| then 1 else 0, address)]));
  }

  lemma {:induction false} OthersJammed(env: Env, from: nat, s: Stream, b: nat, k: nat, address: SymAddr,
                                        acts: seq<Action>)
    requires StreamSized(s) && !s.hung && k <= Size(s) <= MAX_TABLE_SIZE && b < Size(s)
    requires JamChecks(env, 4, address).Accepted?
    requires acts == OtherJams(k, b, Size(s), address)
    ensures ActionsSized(Size(s), SignatureLength(s), acts)
    ensures !Exec(env, Answers(), from, s, acts).hung
    ensures Surrounded(s.local.setup.entry, Exec(env, Answers(), from, s, acts).local.setup, b, k)
    decreases k
  {
    hide Perform, StreamSized, JamChecks, Surrounded;
    if k == 0 {
      NoJams(s.local.setup, b);
    } else {
      var front := OtherJams(k - 1, b, Size(s), address);
      OthersJammed(env, from, s, b, k - 1, address, front);
      if k - 1 == b {
        assert acts == front;
        SkipEntry(s.local.setup.entry, Exec(env, Answers(), from, s, acts).local.setup, b);
      } else {
        assert acts[..|acts| - 1] == front;
        var p := Exec(env, Answers(), from, s, front);
        OtherJammed(env, from + Wakes(acts), s, p, b, k, address);
      }
    }
  }

  lemma NoJams(s: Setup, b: nat)
    requires b < |s.entry|
    ensures Surrounded(s.entry, s, b, 0)
  {
  }

  lemma SkipEntry(was: seq<ControlEntry>, s: Setup, b: nat)
    requires b < |was| && Surrounded(was, s, b, b)
    ensures Surrounded(was, s, b, b + 1)
  {
  }

  lemma OtherJammed(env: Env, now: nat, s: Stream, p: Stream, b: nat, k: nat, address: SymAddr)
    requires StreamSized(p) && !p.hung && 0 < k <= Size(s) == Size(p) <= MAX_TABLE_SIZE && b < Size(s) && k - 1 != b
    requires JamChecks(env, 4, address).Accepted?
    requires Surrounded(s.local.setup.entry, p.local.setup, b, k - 1)
    ensures
      var r := Perform(env, Answers(), now, p, OtherJam(k, Size(s), address));
      !r.hung && Surrounded(s.local.setup.entry, r.local.setup, b, k)
  {
    hide Perform, Surrounded, JamChecks;
    JamFills(env, Answers(), now, p, k, 4, if k == Size(s) then 1 else 0, address);
    SurroundedOn(s.local.setup.entry, p.local.setup, b, k, JamChecks(env, 4, address).address);
  }

  /** Started, such a table is primed. */
  lemma StartPrimes(was: seq<ControlEntry>, s: Stream, b: nat)
    requires StreamSized(s) && Size(s) == |was| && b < |was| - 1 && was[b].length % 0x100 > 4
    requires Surrounded(was, s.local.setup, b, |was|)
    ensures Primed(StartStream(s, true).local.setup, b)
  {
    var entry := s.local.setup.entry;
    ActiveCountIs(entry, |entry|);
    assert entry[|entry| - 1].delay == 1;
    DelaySumPositive(entry, |entry|);
  }

  /** The Jams, a Start, and the wakeups up to the one that leaves the area. */
  function ExposingRun(n: nat, b: nat, delay: nat, address: SymAddr): seq<Action>
    requires n <= MAX_TABLE_SIZE
  {
    OtherJams(n, b, n, address) + [Start(true)] + seq(delay + 1, _ => Wake)
  }

  lemma ExposingRunAt(n: nat, b: nat, delay: nat, address: SymAddr, k: nat)
    requires n <= MAX_TABLE_SIZE && k <= delay
    ensures
      var jams, acts := OtherJams(n, b, n, address), ExposingRun(n, b, delay, address);
      && |acts| == |jams| + delay + 2
      && acts[..|jams|] == jams && acts[|jams|] == Start(true) && acts[|jams| + 1 + k] == Wake
  {
  }

  lemma ExposingRunOk(n: nat, b: nat, delay: nat, address: SymAddr, signatureLength: nat)
    requires n <= MAX_TABLE_SIZE
    ensures ActionsSized(n, signatureLength, ExposingRun(n, b, delay, address))
    ensures FitLoads(ExposingRun(n, b, delay, address))
  {
  }

  lemma AfterStart(env: Env, from: nat, s: Stream, b: nat, delay: nat, address: SymAddr, acts: seq<Action>)
    returns (m: nat)
    requires StreamSized(s) && !s.hung && b < Size(s) - 1
    requires s.local.setup.entry[b].length % 0x100 > 4 && JamChecks(env, 4, address).Accepted?
    requires acts == ExposingRun(Size(s), b, delay, address)
    ensures m + delay + 1 == |acts| && forall k :: m <= k < |acts| ==> acts[k] == Wake
    ensures ActionsSized(Size(s), SignatureLength(s), acts)
    ensures
      var p := Before(env, Answers(), from, s, acts, m);
      && !p.hung && Primed(p.local.setup, b) && p.local.setup.entry[b] == s.local.setup.entry[b]
      && p.local.cursor.countdown == 1 && p.local.cursor.currentEntry == 0 && p.local.cursor.pktOffset == 0
  {
    hide Exec, Surrounded, Primed;
    var n := Size(s);
    var jams := OtherJams(n, b, n, address);
    m := |jams| + 1;
    ExposingRunOk(n, b, delay, address, SignatureLength(s));
    ExposingRunAt(n, b, delay, address, 0);
    OthersJammed(env, from, s, b, n, address, jams);
    var p := Before(env, Answers(), from, s, acts, |jams|);
    assert p == Exec(env, Answers(), from, s, jams);
    BeforeNext(env, Answers(), from, s, acts, |jams|, p);
    StartPrimes(s.local.setup.entry, p, b);
    SurroundedKeeps(s.local.setup.entry, p.local.setup, b, n);
    forall k | m <= k < |acts| ensures acts[k] == Wake {
      ExposingRunAt(n, b, delay, address, k - m);
    }
  }

  lemma SurroundedKeeps(was: seq<ControlEntry>, s: Setup, b: nat, k: nat)
    requires b < |was| && k <= |was| && Surrounded(was, s, b, k)
    ensures |s.entry| == |was| && s.entry[b] == was[b]
  {
  }

  /** One wakeup of a run, as far as the local structure goes. */
  lemma WakeNext(env: Env, mem: Memory, from: nat, s: Stream, acts: seq<Action>, k: nat, p: Stream, r: Stream)
    requires StreamSized(s) && ActionsSized(Size(s), SignatureLength(s), acts)
    requires k < |acts| && acts[k] == Wake
    requires p == Before(env, mem, from, s, acts, k) && !p.hung
    requires WakeupAny(p.local, mem, from + Wakes(acts[..k + 1])).Some?
    requires r == Before(env, mem, from, s, acts, k + 1)
    ensures !r.hung
    ensures r.local == Table(p.local.setup, WakeupAny(p.local, mem, from + Wakes(acts[..k + 1])).value.cursor)
  {
    hide Exec, WakeupAny;
    BeforeNext(env, mem, from, s, acts, k, p);
  }

  /** w wakeups behind the first one. */
  lemma {:induction false} Waiting(env: Env, from: nat, s: Stream, b: nat, acts: seq<Action>, m: nat, w: nat,
                                   setup: Setup, r: Stream)
    requires StreamSized(s) && ActionsSized(Size(s), SignatureLength(s), acts)
    requires m + w + 1 < |acts| && forall k :: m <= k < |acts| ==> acts[k] == Wake
    requires Primed(setup, b) && w < setup.entry[b].delay
    requires
      var p := Before(env, Answers(), from, s, acts, m);
      && !p.hung && p.local.setup == setup
      && p.local.cursor.countdown == 1 && p.local.cursor.currentEntry == 0 && p.local.cursor.pktOffset == 0
    requires r == Before(env, Answers(), from, s, acts, m + w + 1)
    ensures !r.hung && r.local.setup == setup && PastEntry(setup, b, r.local.cursor, setup.entry[b].delay - w)
    decreases w
  {
    hide Exec, WakeupAny, Primed, Overwrites;
    PrimedSize(setup, b);
    var now := from + Wakes(acts[..m + w + 1]);
    var p := Before(env, Answers(), from, s, acts, m + w);
    if w == 0 {
      FirstWake(p.local, b, now);
    } else {
      Waiting(env, from, s, b, acts, m, w - 1, setup, p);
      LaterWake(p.local, b, setup.entry[b].delay - (w - 1), now);
    }
    WakeNext(env, Answers(), from, s, acts, m + w, p, r);
  }

  lemma PrimedSize(s: Setup, b: nat)
    requires Primed(s, b)
    ensures b < |s.entry|
  {
  }

  /** The run does leave the data area. */
  lemma ExposedLength(env: Env, from: nat, s: Stream, b: nat, address: SymAddr) returns (acts: seq<Action>)
    requires StreamSized(s) && !s.hung && b < Size(s) - 1
    requires s.local.setup.entry[b].length % 0x100 > 4 && JamChecks(env, 4, address).Accepted?
    ensures ActionsSized(Size(s), SignatureLength(s), acts) && FitLoads(acts)
    ensures !WritesInside(env, Answers(), from, s, acts)
  {
    hide Exec, Primed, Overwrites, JamChecks;
    var delay := s.local.setup.entry[b].delay;
    acts := ExposingRun(Size(s), b, delay, address);
    ExposingRunOk(Size(s), b, delay, address, SignatureLength(s));
    var m := AfterStart(env, from, s, b, delay, address, acts);
    var setup := Before(env, Answers(), from, s, acts, m).local.setup;
    var p := Before(env, Answers(), from, s, acts, m + delay);
    var now := from + Wakes(acts[..m + delay + 1]);
    if delay == 0 {
      FirstWake(p.local, b, now);
    } else {
      Waiting(env, from, s, b, acts, m, delay - 1, setup, p);
      LaterWake(p.local, b, 1, now);
    }
    assert !p.hung && Overwrites(p.local, Answers(), now);
  }

  /** The buffer bound, exactly. In all runs from a stream - whatever is jammed, started, stopped, or
      loaded with lengths that fit, and whatever memory answers - no byte is written outside the
      data area if and only if no entry but the last moves the offset by more than four bytes. The
      platform is assumed to have some valid four-byte dwell. */
  lemma WritesInsideIff(env: Env, from: nat, s: Stream, address: SymAddr)
    requires StreamSized(s) && !s.hung && Settled(s.local)
    requires JamChecks(env, 4, address).Accepted?
    ensures (forall mem: Memory, acts :: ActionsSized(Size(s), SignatureLength(s), acts) && FitLoads(acts) ==>
                                         WritesInside(env, mem, from, s, acts))
            <==> LengthsFit(s.local.setup.entry)
  {
    hide WritesInside, FitLoads, JamChecks;
    if LengthsFit(s.local.setup.entry) {
      forall mem: Memory, acts | ActionsSized(Size(s), SignatureLength(s), acts) && FitLoads(acts)
        ensures WritesInside(env, mem, from, s, acts)
      {
        FitStaysInside(env, mem, from, s, acts);
      }
    } else {
      var b :| 0 <= b < Size(s) - 1 && s.local.setup.entry[b].length % 0x100 > 4;
      var acts := ExposedLength(env, from, s, b, address);
    }
  }

  /** The same for a load that has just been copied in, in terms of the load itself and whatever the
      write offset was before: a disabled load leaves it, but a Start puts it back. */
  lemma LoadWritesInsideIff(env: Env, from: nat, s: Stream, tbl: LoadTable, address: SymAddr)
    requires StreamSized(s) && !s.hung && FlagOk(tbl)
    requires |tbl.entry| == Size(s) && |tbl.signature| == SignatureLength(s)
    requires JamChecks(env, 4, address).Accepted?
    ensures
      var r := LoadStream(env, s, tbl, true);
      && StreamSized(r)
      && ((forall mem: Memory, acts :: ActionsSized(Size(r), SignatureLength(r), acts) && FitLoads(acts) ==>
                                       WritesInside(env, mem, from, r, acts))
          <==> LengthsFit(tbl.entry))
  {
    hide WritesInside, FitLoads, JamChecks;
    LoadOk(env, s, tbl, true);
    CopySized(env, tbl);
    WritesInsideIff(env, from, LoadStream(env, s, tbl, true), address);
  }
}
