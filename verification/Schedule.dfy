/** The schedule of an undisturbed table in closed form, and the proof that the countdown
    machine follows it wakeup by wakeup. */
module Schedule {
  import opened Types
  import opened Engine

  /** A table the engine processes and whose inner loop always ends. */
  ghost predicate Runnable(s: Setup) {
    SetupOk(s) && Processed(s) && HasDelay(s)
  }

  /** The engine is inside a packet. */
  ghost predicate Inside(s: Setup, c: Cursor) {
    CursorOk(|s.entry|, c) && c.currentEntry < s.addrCount
  }

  lemma CoherentIsRunnable(s: Setup)
    requires SetupOk(s) && Coherent(s) && Processed(s)
    ensures Runnable(s)
  {
    CoherentHasDelay(s);
  }

  /** Wakeups numbered from + 1 to from + w, and nothing else. */
  ghost function Run(s: Setup, c: Cursor, mem: Memory, from: nat, w: nat): (r: Step)
    requires Runnable(s) && CursorOk(|s.entry|, c)
    ensures CursorOk(|s.entry|, r.cursor)
  {
    if w == 0 then Step(c, [])
    else
      var p := Run(s, c, mem, from, w - 1);
      var r := Wakeup(Table(s, p.cursor), mem, from + w);
      Step(r.cursor, p.events + r.events)
  }

  // ----- the schedule

  /** Wakeups until the decremented countdown reaches zero; a zero countdown wraps first. */
  function Waits(countdown: u32): (n: nat)
    ensures 1 <= n <= U32_SPAN
  {
    if countdown == 0 then U32_SPAN else countdown
  }

  /** The stored countdown with n wakeups to wait. */
  function Countdown(n: nat): u32
    requires n <= U32_SPAN
  {
    if n == U32_SPAN then 0 else n
  }

  /** Entry of the i-th sample, counted cyclically from entry k. */
  function SlotAt(s: Setup, k: nat, i: nat): (r: nat)
    requires k < s.addrCount
    ensures r < s.addrCount
  {
    if i == 0 then k else NextSlot(s, SlotAt(s, k, i - 1))
  }

  /** Wakeup at which the i-th sample from now is due. */
  function TimeAt(s: Setup, c: Cursor, from: nat, i: nat): nat
    requires c.currentEntry < s.addrCount <= |s.entry|
  {
    if i == 0 then from + Waits(c.countdown)
    else TimeAt(s, c, from, i - 1) + s.entry[SlotAt(s, c.currentEntry, i - 1)].delay
  }

  /** The first i samples, each taken at its due time. */
  ghost function Collected(s: Setup, c: Cursor, mem: Memory, from: nat, i: nat): (r: Step)
    requires SetupOk(s) && Inside(s, c)
    ensures Inside(s, r.cursor)
    ensures r.cursor.currentEntry == SlotAt(s, c.currentEntry, i)
  {
    if i == 0 then Step(c, [])
    else
      var p := Collected(s, c, mem, from, i - 1);
      var r := Pass(s, p.cursor, mem, TimeAt(s, c, from, i - 1));
      Step(r.cursor, p.events + r.events)
  }

  /** The i-th sample follows the one before. */
  lemma CollectedStep(s: Setup, c: Cursor, mem: Memory, from: nat, i: nat, before: Cursor, r: Cursor)
    requires SetupOk(s) && Inside(s, c) && i > 0
    requires before == Collected(s, c, mem, from, i - 1).cursor
    requires r == Collected(s, c, mem, from, i).cursor
    ensures Inside(s, before)
    ensures r == Pass(s, before, mem, TimeAt(s, c, from, i - 1)).cursor
    ensures TimeAt(s, c, from, i) == TimeAt(s, c, from, i - 1) + s.entry[before.currentEntry].delay
  {
    hide Pass;
  }

  // ----- the engine follows the schedule

  lemma PassIgnoresCountdown(s: Setup, c: Cursor, mem: Memory, now: nat, x: u32)
    requires SetupOk(s) && Inside(s, c)
    ensures Pass(s, c.(countdown := x), mem, now) == Pass(s, c, mem, now)
  {
  }

  /** Where the engine stands at wakeup now with m samples behind it. */
  ghost predicate InStep(s: Setup, c: Cursor, mem: Memory, from: nat, m: nat, now: nat, cur: Cursor)
    requires SetupOk(s) && Inside(s, c)
  {
    && (m > 0 ==> TimeAt(s, c, from, m - 1) <= now)
    && now <= TimeAt(s, c, from, m) <= now + U32_SPAN
    && cur == Collected(s, c, mem, from, m).cursor.(countdown := Countdown(TimeAt(s, c, from, m) - now))
  }

  lemma PassIsNextSample(s: Setup, c: Cursor, mem: Memory, from: nat, m: nat, cur: Cursor, p: Step)
    requires SetupOk(s) && Inside(s, c) && Inside(s, cur)
    requires InStep(s, c, mem, from, m, TimeAt(s, c, from, m), cur)
    requires p == Pass(s, cur, mem, TimeAt(s, c, from, m))
    ensures InStep(s, c, mem, from, m + 1, TimeAt(s, c, from, m), p.cursor)
    ensures Collected(s, c, mem, from, m + 1).events == Collected(s, c, mem, from, m).events + p.events
  {
    PassIgnoresCountdown(s, Collected(s, c, mem, from, m).cursor, mem, TimeAt(s, c, from, m), cur.countdown);
  }

  lemma DrainIdle(s: Setup, c: Cursor, mem: Memory, now: nat)
    requires SetupOk(s) && Inside(s, c) && c.countdown != 0
    ensures Drain(s, c, mem, now) == Step(c, [])
  {
  }

  /** The inner loop takes exactly the samples due now, at most AddrCount of them. */
  lemma {:induction false} DrainTakesWhatIsDue(s: Setup, c: Cursor, mem: Memory, from: nat, m: nat, now: nat,
                                               cur: Cursor, r: Step)
    returns (m': nat)
    requires Runnable(s) && Inside(s, c) && Inside(s, cur)
    requires InStep(s, c, mem, from, m, now, cur)
    requires TimeAt(s, c, from, m) < now + U32_SPAN
    requires r == Drain(s, cur, mem, now)
    ensures m <= m' <= m + Remaining(s, cur)
    ensures TimeAt(s, c, from, m') > now
    ensures InStep(s, c, mem, from, m', now, r.cursor)
    ensures Collected(s, c, mem, from, m').events == Collected(s, c, mem, from, m).events + r.events
    decreases Remaining(s, cur)
  {
    hide Drain, Pass, Fetch;
    if TimeAt(s, c, from, m) > now {
      m' := m;
      DrainIdle(s, cur, mem, now);
    } else {
      var p := Pass(s, cur, mem, now);
      PassIsNextSample(s, c, mem, from, m, cur, p);
      DrainFromFront(s, cur, mem, now, p);
      var q := Drain(s, p.cursor, mem, now);
      m' := DrainTakesWhatIsDue(s, c, mem, from, m + 1, now, p.cursor, q);
      var e0 := Collected(s, c, mem, from, m).events;
      Associate(e0, p.events, q.events);
    }
  }

  lemma TickStaysInStep(s: Setup, c: Cursor, mem: Memory, from: nat, m: nat, now: nat, cur: Cursor)
    requires SetupOk(s) && Inside(s, c)
    requires InStep(s, c, mem, from, m, now, cur)
    requires now < TimeAt(s, c, from, m)
    ensures InStep(s, c, mem, from, m, now + 1, Ticked(cur))
    ensures TimeAt(s, c, from, m) < now + 1 + U32_SPAN
    ensures Inside(s, Ticked(cur))
  {
  }

  lemma WakeupInside(s: Setup, c: Cursor, mem: Memory, now: nat)
    requires Runnable(s) && Inside(s, c)
    ensures Wakeup(Table(s, c), mem, now) == Drain(s, Ticked(c), mem, now)
  {
  }

  lemma RunStart(s: Setup, c: Cursor, mem: Memory, from: nat)
    requires SetupOk(s) && Inside(s, c)
    ensures InStep(s, c, mem, from, 0, from, c)
    ensures from < TimeAt(s, c, from, 0)
    ensures Collected(s, c, mem, from, 0).events == []
  {
  }

  /** Refinement over a whole run: after w wakeups the engine stands before the first sample
      that is due later, and it has produced exactly the events of the samples due by then. */
  lemma {:induction false} RunFollowsSchedule(s: Setup, c: Cursor, mem: Memory, from: nat, w: nat, end: Step)
    returns (m: nat)
    requires Runnable(s) && Inside(s, c)
    requires end == Run(s, c, mem, from, w)
    ensures from + w < TimeAt(s, c, from, m)
    ensures InStep(s, c, mem, from, m, from + w, end.cursor)
    ensures end.events == Collected(s, c, mem, from, m).events
  {
    hide Wakeup, Drain, Pass, Collected, TimeAt, InStep;
    if w == 0 {
      m := 0;
      RunStart(s, c, mem, from);
    } else {
      var p := Run(s, c, mem, from, w - 1);
      var m0 := RunFollowsSchedule(s, c, mem, from, w - 1, p);
      m := WakeupFollowsSchedule(s, c, mem, from, from + w - 1, m0, p, Wakeup(Table(s, p.cursor), mem, from + w));
    }
  }

  lemma WakeupFollowsSchedule(s: Setup, c: Cursor, mem: Memory, from: nat, now: nat, m: nat, p: Step, r: Step)
    returns (m': nat)
    requires Runnable(s) && Inside(s, c)
    requires now < TimeAt(s, c, from, m)
    requires InStep(s, c, mem, from, m, now, p.cursor)
    requires p.events == Collected(s, c, mem, from, m).events
    requires r == Wakeup(Table(s, p.cursor), mem, now + 1)
    ensures m <= m'
    ensures now + 1 < TimeAt(s, c, from, m')
    ensures InStep(s, c, mem, from, m', now + 1, r.cursor)
    ensures p.events + r.events == Collected(s, c, mem, from, m').events
  {
    TickStaysInStep(s, c, mem, from, m, now, p.cursor);
    WakeupInside(s, p.cursor, mem, now + 1);
    m' := DrainTakesWhatIsDue(s, c, mem, from, m, now + 1, Ticked(p.cursor), r);
  }
}
