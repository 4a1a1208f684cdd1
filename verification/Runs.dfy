/** What every run of wakeups, commands and loads keeps, whatever fails on the way. */
module Runs {
  import opened Types
  import opened Engine
  import opened AnyTable
  import opened Validation
  import opened Commands

  function Wakes(acts: seq<Action>): nat {
    if acts == [] then 0
    else Wakes(acts[..|acts| - 1]) + if acts[|acts| - 1].Wake? then 1 else 0
  }

  ghost predicate ActionsSized(size: nat, signatureLength: nat, acts: seq<Action>) {
    forall i :: 0 <= i < |acts| ==> ActionSized(size, signatureLength, acts[i])
  }

  ghost predicate ActionsLegal(size: nat, signatureLength: nat, acts: seq<Action>) {
    forall i :: 0 <= i < |acts| ==> ActionLegal(size, signatureLength, acts[i])
  }

  ghost predicate ActionsOk(env: Env, size: nat, signatureLength: nat, acts: seq<Action>) {
    forall i :: 0 <= i < |acts| ==> ActionOk(env, size, signatureLength, acts[i])
  }

  /** A run; wakeups are numbered from + 1, from + 2 and so on. */
  ghost function Exec(env: Env, mem: Memory, from: nat, s: Stream, acts: seq<Action>): (r: Stream)
    requires StreamSized(s) && ActionsSized(Size(s), SignatureLength(s), acts)
    ensures StreamSized(r) && Size(r) == Size(s) && SignatureLength(r) == SignatureLength(s)
    ensures StreamOk(s) && ActionsLegal(Size(s), SignatureLength(s), acts) ==> StreamOk(r)
  {
    if acts == [] then s
    else
      var p := Exec(env, mem, from, s, acts[..|acts| - 1]);
      Perform(env, mem, from + Wakes(acts), p, acts[|acts| - 1])
  }

  /** The state before action k. */
  ghost function Before(env: Env, mem: Memory, from: nat, s: Stream, acts: seq<Action>, k: nat): (r: Stream)
    requires StreamSized(s) && ActionsSized(Size(s), SignatureLength(s), acts)
    requires k <= |acts|
    ensures StreamSized(r) && Size(r) == Size(s) && SignatureLength(r) == SignatureLength(s)
    ensures StreamOk(s) && ActionsLegal(Size(s), SignatureLength(s), acts) ==> StreamOk(r)
  {
    Exec(env, mem, from, s, acts[..k])
  }

  lemma BeforeNext(env: Env, mem: Memory, from: nat, s: Stream, acts: seq<Action>, k: nat, p: Stream)
    requires StreamSized(s) && ActionsSized(Size(s), SignatureLength(s), acts)
    requires k < |acts|
    requires p == Before(env, mem, from, s, acts, k)
    ensures Before(env, mem, from, s, acts, k + 1) ==
            Perform(env, mem, from + Wakes(acts[..k + 1]), p, acts[k])
  {
    hide Perform;
    assert acts[..k + 1][..k] == acts[..k];
  }

  /** Validation accepts only these values of the enable flag. */
  predicate FlagOk(tbl: LoadTable) {
    tbl.enabled == DISABLED || tbl.enabled == ENABLED
  }

  predicate FlagsOk(acts: seq<Action>) {
    forall i :: 0 <= i < |acts| && acts[i].Load? ==> FlagOk(acts[i].tbl)
  }

  predicate AccessOk(a: Action) {
    match a
    case Wake => true
    case Start(ok) => ok
    case Stop(ok) => ok
    case Jam(_, _, _, _, ok) => ok
    case SetSignature(_, ok) => ok
    case Load(_, ok) => ok
  }

  ghost predicate AllAccessOk(acts: seq<Action>) {
    forall i :: 0 <= i < |acts| ==> AccessOk(acts[i])
  }

  /** Where every run begins: a cleared control structure meets all the invariants below. */
  lemma InitialStream(env: Env, size: nat, signatureLength: nat, buffer: LoadTable)
    requires 1 <= size <= MAX_TABLE_SIZE && 0 < signatureLength
    requires |buffer.entry| == size && |buffer.signature| == signatureLength
    ensures
      var s := Stream(Cleared(size, signatureLength), buffer, [], false);
      && StreamOk(s)
      && Protected(env, s.local.setup) && SafeTrace(env, s.trace)
      && Coherent(s.local.setup) && CountdownSafe(s.local) && InBounds(s.local.cursor)
      && s.local.setup.enabled == DISABLED && s.local.cursor.countdown == 1
      && (forall i :: 0 <= i < size ==> s.local.setup.entry[i] == Entry(0, 0, 0))
      && (forall i :: 0 <= i < signatureLength ==> s.local.setup.signature[i] == '\0')
  {
  }

  // ----- every memory access is good

  ghost predicate Protected(env: Env, s: Setup) {
    forall i :: 0 <= i < |s.entry| ==> s.entry[i].length == 0 || GoodRead(env, s.entry[i].address, s.entry[i].length)
  }

  /** A sample of length 0 accesses nothing. */
  ghost predicate SafeEvent(env: Env, e: Event) {
    e.Sample? ==> e.length == 0 || GoodRead(env, e.address, e.length)
  }

  ghost predicate SafeTrace(env: Env, trace: seq<Event>) {
    forall i :: 0 <= i < |trace| ==> SafeEvent(env, trace[i])
  }

  /** The entries the engine can reach are null or good. */
  ghost predicate ActiveGood(env: Env, s: Setup)
    requires s.addrCount <= |s.entry|
  {
    forall i :: 0 <= i < s.addrCount ==> s.entry[i].length == 0 || GoodRead(env, s.entry[i].address, s.entry[i].length)
  }

  lemma CollectSafe(env: Env, s: Setup, c: Cursor, mem: Memory, now: nat)
    requires SetupSized(s) && CursorSized(|s.entry|, c) && c.currentEntry < s.addrCount
    requires ActiveGood(env, s)
    requires Collect(s, c, mem, now).Some?
    ensures SafeTrace(env, Collect(s, c, mem, now).value.events)
  {
  }

  /** Two memories that answer alike to every read of a good dwell. What does not depend on which of
      them is there asks memory for nothing else. */
  ghost predicate AgreeOnGood(env: Env, mem: Memory, other: Memory) {
    forall r: ReadRequest :: GoodRead(env, r.address, r.length) ==> mem(r) == other(r)
  }

  lemma CollectAsksOnlyGood(env: Env, s: Setup, c: Cursor, mem: Memory, other: Memory, now: nat)
    requires SetupSized(s) && CursorSized(|s.entry|, c) && c.currentEntry < s.addrCount
    requires ActiveGood(env, s) && AgreeOnGood(env, mem, other)
    ensures Collect(s, c, other, now) == Collect(s, c, mem, now)
  {
    var k := c.currentEntry;
    if s.entry[k].length != 0 {
      var r := ReadRequest(now, k, s.entry[k].address, s.entry[k].length);
      assert mem(r) == other(r);
    }
    assert CodeFor(s, mem, k, now) == CodeFor(s, other, k, now);
    assert Fits(s, c, mem, now) ==> Fetched(s, c, mem, now) == Fetched(s, c, other, now);
  }

  lemma {:induction false} PassesAskOnlyGood(env: Env, s: Setup, c: Cursor, mem: Memory, other: Memory,
                                             now: nat, n: nat)
    requires SetupSized(s) && CursorSized(|s.entry|, c) && c.currentEntry < s.addrCount
    requires ActiveGood(env, s) && AgreeOnGood(env, mem, other)
    ensures Iterate(s, c, other, now, n) == Iterate(s, c, mem, now, n)
    decreases n
  {
    hide Collect;
    if n > 0 && c.countdown == 0 {
      CollectAsksOnlyGood(env, s, c, mem, other, now);
      var p := Collect(s, c, mem, now);
      if p.Some? {
        PassesAskOnlyGood(env, s, p.value.cursor, mem, other, now, n - 1);
      }
    }
  }

  lemma WakeAsksOnlyGood(env: Env, s: Stream, mem: Memory, other: Memory, now: nat)
    requires StreamSized(s) && ActiveGood(env, s.local.setup) && AgreeOnGood(env, mem, other)
    ensures WakeStream(s, other, now) == WakeStream(s, mem, now)
  {
    hide Iterate, ActiveGood, AgreeOnGood, Woken;
    var t := s.local;
    if Processed(t.setup) && t.cursor.currentEntry < t.setup.addrCount {
      PassesAskOnlyGood(env, t.setup, Ticked(t.cursor), mem, other, now, t.setup.addrCount);
    }
  }

  lemma PerformAsksOnlyGood(env: Env, mem: Memory, other: Memory, now: nat, s: Stream, a: Action)
    requires StreamSized(s) && ActionSized(Size(s), SignatureLength(s), a) && AgreeOnGood(env, mem, other)
    requires a.Wake? && !s.hung ==> ActiveGood(env, s.local.setup)
    ensures Perform(env, other, now, s, a) == Perform(env, mem, now, s, a)
  {
    hide WakeStream, ActiveGood, AgreeOnGood;
    if a.Wake? && !s.hung {
      WakeAsksOnlyGood(env, s, mem, other, now);
    }
  }

  /** Any number of passes, even of a loop that never ends, reads only good addresses and writes
      only inside the data area. */
  lemma {:induction false} PassesSafe(env: Env, s: Setup, c: Cursor, mem: Memory, now: nat, n: nat)
    requires SetupSized(s) && CursorSized(|s.entry|, c) && c.currentEntry < s.addrCount
    requires ActiveGood(env, s) && InBounds(c)
    ensures Iterate(s, c, mem, now, n).Some?
    ensures SafeTrace(env, Iterate(s, c, mem, now, n).value.events)
    ensures forall other: Memory :: AgreeOnGood(env, mem, other) ==>
              Iterate(s, c, other, now, n) == Iterate(s, c, mem, now, n)
    decreases n
  {
    hide Collect;
    if n > 0 && c.countdown == 0 {
      GoodFits(env, s);
      CollectFits(s, c, mem, now);
      CollectSafe(env, s, c, mem, now);
      PassesSafe(env, s, Collect(s, c, mem, now).value.cursor, mem, now, n - 1);
    }
    forall other: Memory | AgreeOnGood(env, mem, other)
      ensures Iterate(s, c, other, now, n) == Iterate(s, c, mem, now, n)
    {
      PassesAskOnlyGood(env, s, c, mem, other, now, n);
    }
  }

  lemma GoodFits(env: Env, s: Setup)
    requires s.addrCount <= |s.entry| && ActiveGood(env, s)
    ensures ActiveFit(s)
  {
  }

  lemma WakeupSafe(env: Env, t: Table, mem: Memory, now: nat)
    requires Sized(t) && ActiveGood(env, t.setup) && InBounds(t.cursor)
    requires WakeupAny(t, mem, now).Some?
    ensures SafeTrace(env, WakeupAny(t, mem, now).value.events)
  {
    hide Iterate;
    if Processed(t.setup) && t.cursor.currentEntry < t.setup.addrCount {
      PassesSafe(env, t.setup, Ticked(t.cursor), mem, now, t.setup.addrCount);
    }
  }

  lemma WakeSafe(env: Env, mem: Memory, now: nat, s: Stream)
    requires StreamSized(s) && InBounds(s.local.cursor) && SafeTrace(env, s.trace)
    requires ActiveGood(env, s.local.setup)
    ensures InBounds(WakeStream(s, mem, now).local.cursor)
    ensures SafeTrace(env, WakeStream(s, mem, now).trace)
    ensures !Overwrites(s.local, mem, now)
  {
    hide WakeupAny, Overwrites, ActiveGood;
    GoodFits(env, s.local.setup);
    WakeupFits(s.local, mem, now);
    if WakeupAny(s.local, mem, now).Some? {
      WakeupSafe(env, s.local, mem, now);
    }
  }

  lemma PerformSafe(env: Env, mem: Memory, now: nat, s: Stream, a: Action)
    requires StreamSized(s) && ActionSized(Size(s), SignatureLength(s), a)
    requires InBounds(s.local.cursor) && SafeTrace(env, s.trace)
    requires a.Wake? && !s.hung ==> ActiveGood(env, s.local.setup)
    ensures InBounds(Perform(env, mem, now, s, a).local.cursor)
    ensures SafeTrace(env, Perform(env, mem, now, s, a).trace)
    ensures a.Wake? && !s.hung ==> !Overwrites(s.local, mem, now)
  {
    hide WakeStream, Overwrites, ActiveGood;
    if a.Wake? && !s.hung {
      WakeSafe(env, mem, now, s);
    }
  }

  /** No wakeup of a run meets an active entry that is neither null nor good. */
  ghost predicate WakesGood(env: Env, mem: Memory, from: nat, s: Stream, acts: seq<Action>)
    requires StreamSized(s) && ActionsSized(Size(s), SignatureLength(s), acts)
  {
    forall k :: 0 <= k < |acts| && acts[k].Wake? && !Before(env, mem, from, s, acts, k).hung ==>
      ActiveGood(env, Before(env, mem, from, s, acts, k).local.setup)
  }

  lemma {:induction false} SafeBefore(env: Env, mem: Memory, from: nat, s: Stream, acts: seq<Action>, k: nat)
    requires StreamSized(s) && ActionsSized(Size(s), SignatureLength(s), acts)
    requires InBounds(s.local.cursor) && SafeTrace(env, s.trace)
    requires WakesGood(env, mem, from, s, acts) && k <= |acts|
    ensures InBounds(Before(env, mem, from, s, acts, k).local.cursor)
    ensures SafeTrace(env, Before(env, mem, from, s, acts, k).trace)
    decreases k
  {
    hide Perform, SafeTrace, InBounds, ActiveGood;
    if k > 0 {
      var p := Before(env, mem, from, s, acts, k - 1);
      SafeBefore(env, mem, from, s, acts, k - 1);
      BeforeNext(env, mem, from, s, acts, k - 1, p);
      PerformSafe(env, mem, from + Wakes(acts[..k]), p, acts[k - 1]);
    }
  }

  lemma {:induction false} AsksOnlyGoodBefore(env: Env, mem: Memory, other: Memory, from: nat, s: Stream,
                                              acts: seq<Action>, k: nat)
    requires StreamSized(s) && ActionsSized(Size(s), SignatureLength(s), acts)
    requires WakesGood(env, mem, from, s, acts) && AgreeOnGood(env, mem, other) && k <= |acts|
    ensures Before(env, other, from, s, acts, k) == Before(env, mem, from, s, acts, k)
    decreases k
  {
    hide Perform, ActiveGood, AgreeOnGood;
    if k > 0 {
      var p := Before(env, mem, from, s, acts, k - 1);
      AsksOnlyGoodBefore(env, mem, other, from, s, acts, k - 1);
      BeforeNext(env, mem, from, s, acts, k - 1, p);
      BeforeNext(env, other, from, s, acts, k - 1, p);
      PerformAsksOnlyGood(env, mem, other, from + Wakes(acts[..k]), p, acts[k - 1]);
    }
  }

  lemma RunAsksOnlyGood(env: Env, mem: Memory, other: Memory, from: nat, s: Stream, acts: seq<Action>)
    requires StreamSized(s) && ActionsSized(Size(s), SignatureLength(s), acts)
    requires WakesGood(env, mem, from, s, acts) && AgreeOnGood(env, mem, other)
    ensures Exec(env, other, from, s, acts) == Exec(env, mem, from, s, acts)
  {
    hide Exec, WakesGood, AgreeOnGood;
    AsksOnlyGoodBefore(env, mem, other, from, s, acts, |acts|);
    assert acts[..|acts|] == acts;
  }

  /** Memory safety of a run, whatever is loaded and whatever accesses to the buffer fail: if no
      wakeup meets a bad active entry then every sample has length 1, 2 or 4 and reads an aligned
      address in a validated range (or, left over from a failed Jam, has length 0 and reads
      nothing); memory is asked for nothing else, as the run does not depend on what it answers
      elsewhere; and no pass of any wakeup writes outside the packet's data area. */
  lemma RunIsSafe(env: Env, mem: Memory, from: nat, s: Stream, acts: seq<Action>)
    requires StreamSized(s) && ActionsSized(Size(s), SignatureLength(s), acts)
    requires InBounds(s.local.cursor) && SafeTrace(env, s.trace)
    requires WakesGood(env, mem, from, s, acts)
    ensures InBounds(Exec(env, mem, from, s, acts).local.cursor)
    ensures SafeTrace(env, Exec(env, mem, from, s, acts).trace)
    ensures forall other: Memory :: AgreeOnGood(env, mem, other) ==>
              Exec(env, other, from, s, acts) == Exec(env, mem, from, s, acts)
    ensures forall k :: 0 <= k < |acts| && acts[k].Wake? && !Before(env, mem, from, s, acts, k).hung ==>
              !Overwrites(Before(env, mem, from, s, acts, k).local, mem, from + Wakes(acts[..k + 1]))
  {
    hide Exec, SafeTrace, InBounds, Overwrites, ActiveGood, Wakes;
    assert acts[..|acts|] == acts;
    SafeBefore(env, mem, from, s, acts, |acts|);
    forall other: Memory | AgreeOnGood(env, mem, other)
      ensures Exec(env, other, from, s, acts) == Exec(env, mem, from, s, acts)
    {
      RunAsksOnlyGood(env, mem, other, from, s, acts);
    }
    forall k | 0 <= k < |acts| && acts[k].Wake? && !Before(env, mem, from, s, acts, k).hung
      ensures !Overwrites(Before(env, mem, from, s, acts, k).local, mem, from + Wakes(acts[..k + 1]))
    {
      WakeStaysInside(env, mem, from, s, acts, k);
    }
  }

  lemma WakeStaysInside(env: Env, mem: Memory, from: nat, s: Stream, acts: seq<Action>, k: nat)
    requires StreamSized(s) && ActionsSized(Size(s), SignatureLength(s), acts)
    requires InBounds(s.local.cursor) && SafeTrace(env, s.trace)
    requires WakesGood(env, mem, from, s, acts)
    requires k < |acts| && acts[k].Wake? && !Before(env, mem, from, s, acts, k).hung
    ensures !Overwrites(Before(env, mem, from, s, acts, k).local, mem, from + Wakes(acts[..k + 1]))
  {
    hide Exec, SafeTrace, InBounds, Overwrites, ActiveGood, Wakes;
    SafeBefore(env, mem, from, s, acts, k);
    WakeSafe(env, mem, from + Wakes(acts[..k + 1]), Before(env, mem, from, s, acts, k));
  }

  // ----- loads that keep their contract

  lemma CopyProtected(env: Env, tbl: LoadTable)
    requires |tbl.entry| <= MAX_TABLE_SIZE
    requires PrefixGood(env, tbl.entry, |tbl.entry|)
    ensures Protected(env, CopyOf(env, tbl))
  {
    forall i | 0 <= i < |tbl.entry| && tbl.entry[i].length != 0
      ensures GoodRead(env, CopyEntry(env, tbl.entry, i).address, tbl.entry[i].length)
    {
      assert GoodEntry(env, tbl.entry[i]);
    }
  }

  /** Jams cannot spoil an entry; a load can if it breaks its contract. */
  lemma PerformProtected(env: Env, mem: Memory, now: nat, s: Stream, a: Action)
    requires StreamSized(s) && ActionSized(Size(s), SignatureLength(s), a)
    requires a.Load? ==> GoodLoad(env, a.tbl)
    requires Protected(env, s.local.setup)
    ensures Protected(env, Perform(env, mem, now, s, a).local.setup)
  {
    hide WakeupAny, Woken;
    if a.Load? {
      CopyProtected(env, a.tbl);
    }
  }

  lemma {:induction false} RunIsProtected(env: Env, mem: Memory, from: nat, s: Stream, acts: seq<Action>)
    requires StreamSized(s) && ActionsOk(env, Size(s), SignatureLength(s), acts)
    requires Protected(env, s.local.setup)
    ensures ActionsSized(Size(s), SignatureLength(s), acts)
    ensures Protected(env, Exec(env, mem, from, s, acts).local.setup)
    decreases |acts|
  {
    hide Perform, Protected;
    if acts != [] {
      var front := acts[..|acts| - 1];
      RunIsProtected(env, mem, from, s, front);
      PerformProtected(env, mem, from + Wakes(acts), Exec(env, mem, from, s, front), acts[|acts| - 1]);
    }
  }

  /** While all loads keep their contract no run meets a bad entry, so every run is safe. */
  lemma GoodLoadsRunSafely(env: Env, mem: Memory, from: nat, s: Stream, acts: seq<Action>)
    requires StreamSized(s) && ActionsOk(env, Size(s), SignatureLength(s), acts)
    requires InBounds(s.local.cursor) && SafeTrace(env, s.trace)
    requires Protected(env, s.local.setup)
    ensures ActionsSized(Size(s), SignatureLength(s), acts) && WakesGood(env, mem, from, s, acts)
    ensures Protected(env, Exec(env, mem, from, s, acts).local.setup)
    ensures InBounds(Exec(env, mem, from, s, acts).local.cursor)
    ensures SafeTrace(env, Exec(env, mem, from, s, acts).trace)
    ensures forall other: Memory :: AgreeOnGood(env, mem, other) ==>
              Exec(env, other, from, s, acts) == Exec(env, mem, from, s, acts)
  {
    hide Exec, Protected, SafeTrace, ActiveGood;
    RunIsProtected(env, mem, from, s, acts);
    forall k | 0 <= k < |acts| && acts[k].Wake? && !Before(env, mem, from, s, acts, k).hung
      ensures ActiveGood(env, Before(env, mem, from, s, acts, k).local.setup)
    {
      RunIsProtected(env, mem, from, s, acts[..k]);
      ProtectedActive(env, Before(env, mem, from, s, acts, k).local.setup);
    }
    RunIsSafe(env, mem, from, s, acts);
  }

  lemma ProtectedActive(env: Env, s: Setup)
    requires s.addrCount <= |s.entry| && Protected(env, s)
    ensures ActiveGood(env, s)
  {
  }

  // ----- the countdown

  /** Between steps an enabled table has wakeups to wait. */
  predicate CountdownSafe(t: Table) {
    t.setup.enabled == ENABLED ==> 1 <= t.cursor.countdown <= 0xFFFF
  }

  /** A shortened table whose last active delay is zero. */
  predicate ZeroDelayOverrun(t: Table)
    requires t.setup.addrCount <= |t.setup.entry|
    requires t.setup.rate > 0 ==> t.setup.addrCount > 0
  {
    Overrun(t) && t.setup.entry[t.setup.addrCount - 1].delay == 0
  }

  lemma {:induction false} IterateCountdown(s: Setup, c: Cursor, mem: Memory, now: nat, n: nat)
    requires SetupSized(s) && CursorSized(|s.entry|, c)
    requires c.currentEntry < s.addrCount && c.countdown <= 0xFFFF
    ensures Iterate(s, c, mem, now, n).Some? ==> Iterate(s, c, mem, now, n).value.cursor.countdown <= 0xFFFF
    decreases n
  {
    hide Collect;
    if n > 0 && c.countdown == 0 && Collect(s, c, mem, now).Some? {
      IterateCountdown(s, Collect(s, c, mem, now).value.cursor, mem, now, n - 1);
    }
  }

  /** A loop that ends, over the entries, leaves a countdown in range. */
  lemma LoopCountdown(s: Setup, c: Cursor, mem: Memory, now: nat)
    requires SetupSized(s) && CursorSized(|s.entry|, c)
    requires c.currentEntry < s.addrCount && c.countdown <= 0xFFFF
    requires c.countdown == 0 ==> HasDelay(s)
    requires Iterate(s, c, mem, now, s.addrCount).Some?
    ensures 1 <= Iterate(s, c, mem, now, s.addrCount).value.cursor.countdown <= 0xFFFF
  {
    IterateCountdown(s, c, mem, now, s.addrCount);
    if c.countdown == 0 {
      IterateEnds(s, c, mem, now, s.addrCount);
    }
  }

  /** What a wakeup does to the countdown, on its own. */
  lemma WakeCountdown(t: Table, mem: Memory, now: nat)
    requires Sized(t) && CountdownSafe(t) && WakeupAny(t, mem, now).Some?
    ensures CountdownSafe(Table(t.setup, WakeupAny(t, mem, now).value.cursor)) <==> !ZeroDelayOverrun(t)
  {
    hide Iterate;
    if Processed(t.setup) && !Overrun(t) {
      LoopCountdown(t.setup, Ticked(t.cursor), mem, now);
    }
  }

  lemma PerformCountdown(env: Env, mem: Memory, now: nat, s: Stream, a: Action)
    requires StreamSized(s) && ActionSized(Size(s), SignatureLength(s), a)
    requires a.Load? ==> FlagOk(a.tbl)
    requires CountdownSafe(s.local)
    ensures CountdownSafe(Perform(env, mem, now, s, a).local) <==>
            !(a.Wake? && !s.hung && WakeupAny(s.local, mem, now).Some? && ZeroDelayOverrun(s.local))
  {
    hide WakeupAny, Woken, ZeroDelayOverrun;
    if a.Wake? && !s.hung && WakeupAny(s.local, mem, now).Some? {
      WakeCountdown(s.local, mem, now);
    }
  }

  lemma OverrunEnds(t: Table, mem: Memory, now: nat)
    requires Sized(t) && ZeroDelayOverrun(t)
    ensures WakeupAny(t, mem, now).Some?
  {
  }

  /** The wakeups of a run that find their table shortened, its last active delay zero. */
  ghost predicate NoZeroDelayOverrun(env: Env, mem: Memory, from: nat, s: Stream, acts: seq<Action>)
    requires StreamSized(s) && ActionsSized(Size(s), SignatureLength(s), acts)
  {
    forall k :: 0 <= k < |acts| && acts[k].Wake? && !Before(env, mem, from, s, acts, k).hung ==>
      !ZeroDelayOverrun(Before(env, mem, from, s, acts, k).local)
  }

  lemma StepCountdown(env: Env, mem: Memory, from: nat, s: Stream, acts: seq<Action>, k: nat)
    requires StreamSized(s) && ActionsSized(Size(s), SignatureLength(s), acts) && FlagsOk(acts)
    requires k < |acts| && CountdownSafe(Before(env, mem, from, s, acts, k).local)
    ensures CountdownSafe(Before(env, mem, from, s, acts, k + 1).local) <==>
            !(acts[k].Wake? && !Before(env, mem, from, s, acts, k).hung &&
              ZeroDelayOverrun(Before(env, mem, from, s, acts, k).local))
  {
    hide Perform, Exec, CountdownSafe, ZeroDelayOverrun, WakeupAny;
    var p := Before(env, mem, from, s, acts, k);
    BeforeNext(env, mem, from, s, acts, k, p);
    PerformCountdown(env, mem, from + Wakes(acts[..k + 1]), p, acts[k]);
    if ZeroDelayOverrun(p.local) {
      OverrunEnds(p.local, mem, from + Wakes(acts[..k + 1]));
    }
  }

  /** Countdown safety, exactly: the countdown of an enabled table stays in 1..65535 throughout a run
      if and only if no wakeup of the run meets a shortened table whose last active delay is zero. No
      failed access, no Jam and no length in a load can break it otherwise. Loads carry an enable flag
      of 0 or 1, as validation demands: one that only becomes 1 when it is cut to 16 bits would enable
      the table without restarting it. */
  lemma CountdownSafeIff(env: Env, mem: Memory, from: nat, s: Stream, acts: seq<Action>)
    requires StreamSized(s) && ActionsSized(Size(s), SignatureLength(s), acts) && FlagsOk(acts)
    requires CountdownSafe(s.local)
    ensures (forall k :: 0 <= k <= |acts| ==> CountdownSafe(Before(env, mem, from, s, acts, k).local)) <==>
            NoZeroDelayOverrun(env, mem, from, s, acts)
  {
    hide Perform, Exec, CountdownSafe, ZeroDelayOverrun;
    if forall k :: 0 <= k <= |acts| ==> CountdownSafe(Before(env, mem, from, s, acts, k).local) {
      forall k | 0 <= k < |acts| && acts[k].Wake? && !Before(env, mem, from, s, acts, k).hung
        ensures !ZeroDelayOverrun(Before(env, mem, from, s, acts, k).local)
      {
        assert CountdownSafe(Before(env, mem, from, s, acts, k + 1).local);
        StepCountdown(env, mem, from, s, acts, k);
      }
    }
    if NoZeroDelayOverrun(env, mem, from, s, acts) {
      forall k | 0 <= k <= |acts|
        ensures CountdownSafe(Before(env, mem, from, s, acts, k).local)
      {
        CountdownStaysSafe(env, mem, from, s, acts, k);
      }
    }
  }

  lemma {:induction false} CountdownStaysSafe(env: Env, mem: Memory, from: nat, s: Stream, acts: seq<Action>, k: nat)
    requires StreamSized(s) && ActionsSized(Size(s), SignatureLength(s), acts) && FlagsOk(acts)
    requires CountdownSafe(s.local) && k <= |acts|
    requires NoZeroDelayOverrun(env, mem, from, s, acts)
    ensures CountdownSafe(Before(env, mem, from, s, acts, k).local)
    decreases k
  {
    hide Perform, CountdownSafe, ZeroDelayOverrun;
    if k > 0 {
      CountdownStaysSafe(env, mem, from, s, acts, k - 1);
      StepCountdown(env, mem, from, s, acts, k - 1);
    }
  }
}
