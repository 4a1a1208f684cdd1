/** When samples are taken and packets are sent, as arithmetic on the delays. */
module ClosedForm {
  import opened Types
  import opened Summary
  import opened Engine
  import opened Schedule

  // ----- position of the i-th sample

  /** If the i-th sample from entry e0 lies cyc whole cycles and k entries past entry 0, it is
      entry k's, and the time to it is cyc cycles plus the delays between e0 and k. */
  lemma {:induction false} PositionOf(s: Setup, c: Cursor, from: nat, i: nat, cyc: nat, k: nat)
    requires c.currentEntry < s.addrCount <= |s.entry|
    requires c.currentEntry + i == cyc * s.addrCount + k && k < s.addrCount
    ensures SlotAt(s, c.currentEntry, i) == k
    ensures TimeAt(s, c, from, i) + DelaySum(s.entry, c.currentEntry) ==
            from + Waits(c.countdown) + cyc * DelaySum(s.entry, s.addrCount) + DelaySum(s.entry, k)
    decreases i
  {
    var n, total := s.addrCount, DelaySum(s.entry, s.addrCount);
    if i == 0 {
      assert cyc == 0 by {
        if cyc > 0 {
          TimesAtLeast(cyc, n);
          assert false;
        }
      }
    } else if k > 0 {
      PositionOf(s, c, from, i - 1, cyc, k - 1);
    } else {
      TimesLess(0, cyc, n);
      TimesDiff(1, cyc, n);
      TimesDiff(1, cyc, total);
      PositionOf(s, c, from, i - 1, cyc - 1, n - 1);
    }
  }

  lemma TimesAtLeast(a: nat, b: nat)
    requires a > 0
    ensures a * b >= b
  {
    assert a * b == (a - 1) * b + b;
    assert (a - 1) * b >= 0;
  }

  lemma TimesDiff(a: nat, b: nat, n: nat)
    requires a <= b
    ensures (b - a) * n == b * n - a * n >= 0
  {
  }

  lemma TimesSucc(a: nat, n: nat)
    ensures (a + 1) * n == a * n + n
  {
  }

  lemma TimesLess(a: nat, b: nat, n: nat)
    requires a * n < b * n
    ensures a < b
  {
    if b <= a {
      TimesDiff(b, a, n);
    }
  }

  lemma Split(x: nat, n: nat) returns (q: nat, r: nat)
    requires n > 0
    ensures x == q * n + r && r < n
  {
    q, r := x / n, x % n;
  }

  lemma {:induction false} TimeMonotone(s: Setup, c: Cursor, from: nat, i: nat, j: nat)
    requires c.currentEntry < s.addrCount <= |s.entry|
    requires i <= j
    ensures TimeAt(s, c, from, i) <= TimeAt(s, c, from, j)
    decreases j
  {
    if i < j {
      TimeMonotone(s, c, from, i, j - 1);
    }
  }

  // ----- the samples and the packets among the events

  function Samples(events: seq<Event>): (r: seq<Event>)
    ensures forall e :: e in r <==> e in events && e.Sample?
  {
    if events == [] then []
    else
      var rest := Samples(events[..|events| - 1]);
      var e := events[|events| - 1];
      if e.Sample? then rest + [e] else rest
  }

  /** Wakeups at which packets were sent. */
  function SendTimes(events: seq<Event>): seq<nat> {
    if events == [] then []
    else
      var rest := SendTimes(events[..|events| - 1]);
      var e := events[|events| - 1];
      if e.Send? then rest + [e.at] else rest
  }

  lemma AppendOne(a: seq<Event>, e: Event)
    ensures Samples(a + [e]) == if e.Sample? then Samples(a) + [e] else Samples(a)
    ensures SendTimes(a + [e]) == if e.Send? then SendTimes(a) + [e.at] else SendTimes(a)
  {
    assert (a + [e])[..|a + [e]| - 1] == a;
  }

  function ScheduledSample(s: Setup, c: Cursor, mem: Memory, from: nat, j: nat): Event
    requires c.currentEntry < s.addrCount <= |s.entry|
  {
    SampleOf(s, mem, SlotAt(s, c.currentEntry, j), TimeAt(s, c, from, j))
  }

  /** The scheduled samples, in order. */
  function SampleList(s: Setup, c: Cursor, mem: Memory, from: nat, i: nat): (r: seq<Event>)
    requires c.currentEntry < s.addrCount <= |s.entry|
    ensures |r| == i
    ensures forall j :: 0 <= j < i ==> r[j] == ScheduledSample(s, c, mem, from, j)
  {
    if i == 0 then [] else SampleList(s, c, mem, from, i - 1) + [ScheduledSample(s, c, mem, from, i - 1)]
  }

  /** A packet goes out with each sample of the last active entry. */
  function LastSlotTime(s: Setup, c: Cursor, from: nat, j: nat): seq<nat>
    requires c.currentEntry < s.addrCount <= |s.entry|
  {
    if SlotAt(s, c.currentEntry, j) == s.addrCount - 1 then [TimeAt(s, c, from, j)] else []
  }

  function PacketList(s: Setup, c: Cursor, from: nat, i: nat): seq<nat>
    requires c.currentEntry < s.addrCount <= |s.entry|
  {
    if i == 0 then [] else PacketList(s, c, from, i - 1) + LastSlotTime(s, c, from, i - 1)
  }

  /** What the i-th pass adds to the events. */
  lemma CollectedNext(s: Setup, c: Cursor, mem: Memory, from: nat, i: nat, a: seq<Event>, b: seq<Event>)
    requires SetupOk(s) && Inside(s, c)
    requires i > 0
    requires a == Collected(s, c, mem, from, i - 1).events
    requires b == Collected(s, c, mem, from, i).events
    ensures Samples(b) == Samples(a) + [ScheduledSample(s, c, mem, from, i - 1)]
    ensures SendTimes(b) == SendTimes(a) + LastSlotTime(s, c, from, i - 1)
  {
    var cur := Collected(s, c, mem, from, i - 1).cursor;
    var sample := ScheduledSample(s, c, mem, from, i - 1);
    var p := Pass(s, cur, mem, TimeAt(s, c, from, i - 1));
    assert b == a + p.events;
    AppendOne(a, sample);
    if |p.events| == 2 {
      assert p.events == [sample] + [p.events[1]];
      Associate(a, [sample], [p.events[1]]);
      AppendOne(a + [sample], p.events[1]);
    }
  }

  lemma {:induction false} CollectedEvents(s: Setup, c: Cursor, mem: Memory, from: nat, i: nat, events: seq<Event>)
    requires SetupOk(s) && Inside(s, c)
    requires events == Collected(s, c, mem, from, i).events
    ensures Samples(events) == SampleList(s, c, mem, from, i)
    ensures SendTimes(events) == PacketList(s, c, from, i)
  {
    hide Pass, Collected, Samples, SendTimes;
    if i == 0 {
      NothingCollected(s, c, mem, from);
    } else {
      var before := Collected(s, c, mem, from, i - 1).events;
      CollectedEvents(s, c, mem, from, i - 1, before);
      CollectedNext(s, c, mem, from, i, before, events);
    }
  }

  lemma NothingCollected(s: Setup, c: Cursor, mem: Memory, from: nat)
    requires SetupOk(s) && Inside(s, c)
    ensures Collected(s, c, mem, from, 0).events == [] && Samples([]) == [] && SendTimes([]) == []
  {
  }

  /** Wakeup at which packet q of an undisturbed run is sent. */
  function PacketTime(s: Setup, c: Cursor, from: nat, q: nat): nat
    requires c.currentEntry < s.addrCount <= |s.entry|
  {
    DelaySumMonotone(s.entry, c.currentEntry, s.addrCount - 1);
    from + Waits(c.countdown) + q * DelaySum(s.entry, s.addrCount)
    + (DelaySum(s.entry, s.addrCount - 1) - DelaySum(s.entry, c.currentEntry))
  }

  function PacketTimes(s: Setup, c: Cursor, from: nat, count: nat): (r: seq<nat>)
    requires c.currentEntry < s.addrCount <= |s.entry|
    ensures |r| == count
    ensures forall q :: 0 <= q < count ==> r[q] == PacketTime(s, c, from, q)
  {
    if count == 0 then [] else PacketTimes(s, c, from, count - 1) + [PacketTime(s, c, from, count - 1)]
  }

  /** Packet q goes out with sample i. */
  lemma LastSampleOfPacket(s: Setup, c: Cursor, from: nat, q: nat, i: nat)
    requires c.currentEntry < s.addrCount <= |s.entry|
    requires c.currentEntry + i == q * s.addrCount + s.addrCount - 1
    ensures SlotAt(s, c.currentEntry, i) == s.addrCount - 1
    ensures TimeAt(s, c, from, i) == PacketTime(s, c, from, q)
  {
    PositionOf(s, c, from, i, q, s.addrCount - 1);
  }

  /** One packet a cycle. */
  lemma {:induction false} PacketListIs(s: Setup, c: Cursor, from: nat, i: nat, cyc: nat, k: nat)
    requires c.currentEntry < s.addrCount <= |s.entry|
    requires c.currentEntry + i == cyc * s.addrCount + k && k < s.addrCount
    ensures PacketList(s, c, from, i) == PacketTimes(s, c, from, cyc)
    decreases i
  {
    var n := s.addrCount;
    if i == 0 {
      if cyc > 0 {
        TimesAtLeast(cyc, n);
        assert false;
      }
    } else if k > 0 {
      PacketListIs(s, c, from, i - 1, cyc, k - 1);
      PositionOf(s, c, from, i - 1, cyc, k - 1);
    } else {
      TimesLess(0, cyc, n);
      TimesDiff(1, cyc, n);
      PacketListIs(s, c, from, i - 1, cyc - 1, n - 1);
      LastSampleOfPacket(s, c, from, cyc - 1, i - 1);
    }
  }

  // ----- the schedule of a run

  /** Entry k is due at wakeup `at` in some cycle of a table that stands at cursor c. */
  ghost predicate DueAt(s: Setup, c: Cursor, from: nat, k: nat, at: nat)
    requires c.currentEntry < s.addrCount <= |s.entry|
  {
    && k < s.addrCount
    && exists cyc: nat :: DueInCycle(s, c, from, k, at, cyc)
  }

  ghost predicate DueInCycle(s: Setup, c: Cursor, from: nat, k: nat, at: nat, cyc: nat)
    requires c.currentEntry < s.addrCount <= |s.entry|
    requires k < s.addrCount
  {
    && (cyc == 0 ==> c.currentEntry <= k)
    && at + DelaySum(s.entry, c.currentEntry) ==
       from + Waits(c.countdown) + cyc * DelaySum(s.entry, s.addrCount) + DelaySum(s.entry, k)
  }

  /** The samples and packets of a run are a beginning of the scheduled ones: those due by
      its last wakeup. */
  lemma RunEvents(s: Setup, c: Cursor, mem: Memory, from: nat, w: nat, events: seq<Event>) returns (m: nat)
    requires Runnable(s) && Inside(s, c)
    requires events == Run(s, c, mem, from, w).events
    ensures Samples(events) == SampleList(s, c, mem, from, m)
    ensures SendTimes(events) == PacketList(s, c, from, m)
    ensures DueBy(s, c, from, m, from + w)
  {
    m := RunFollowsSchedule(s, c, mem, from, w, Run(s, c, mem, from, w));
    CollectedEvents(s, c, mem, from, m, events);
  }

  /** Exactly the first m samples are due by now. */
  ghost predicate DueBy(s: Setup, c: Cursor, from: nat, m: nat, now: nat)
    requires c.currentEntry < s.addrCount <= |s.entry|
  {
    && (m > 0 ==> TimeAt(s, c, from, m - 1) <= now)
    && now < TimeAt(s, c, from, m)
  }

  lemma DueByIs(s: Setup, c: Cursor, from: nat, m: nat, now: nat, j: nat)
    requires c.currentEntry < s.addrCount <= |s.entry|
    requires DueBy(s, c, from, m, now)
    ensures j < m <==> TimeAt(s, c, from, j) <= now
  {
    if j < m {
      TimeMonotone(s, c, from, j, m - 1);
    } else {
      TimeMonotone(s, c, from, m, j);
    }
  }

  ghost predicate SampledAt(events: seq<Event>, k: nat, at: nat) {
    exists e :: e in events && e.Sample? && e.slot == k && e.at == at
  }

  /** Schedule of any undisturbed run of w wakeups: entry k is sampled at a wakeup if and only if
      that wakeup has come and the delays say so, cycle after cycle. */
  lemma SampledIffDue(s: Setup, c: Cursor, mem: Memory, from: nat, w: nat, k: nat, at: nat, events: seq<Event>)
    requires Runnable(s) && Inside(s, c)
    requires events == Run(s, c, mem, from, w).events
    ensures SampledAt(events, k, at) <==> (DueAt(s, c, from, k, at) && at <= from + w)
  {
    var m := RunEvents(s, c, mem, from, w, events);
    var list := SampleList(s, c, mem, from, m);
    if SampledAt(events, k, at) {
      var e :| e in events && e.Sample? && e.slot == k && e.at == at;
      assert e in list;
      var j :| 0 <= j < m && list[j] == e;
      SampleIsDue(s, c, from, j);
      DueByIs(s, c, from, m, from + w, j);
    }
    if DueAt(s, c, from, k, at) && at <= from + w {
      var j := DueSample(s, c, from, k, at);
      DueByIs(s, c, from, m, from + w, j);
      assert list[j] in Samples(events);
    }
  }

  lemma SampleIsDue(s: Setup, c: Cursor, from: nat, j: nat)
    requires c.currentEntry < s.addrCount <= |s.entry|
    ensures DueAt(s, c, from, SlotAt(s, c.currentEntry, j), TimeAt(s, c, from, j))
  {
    var cyc, k := Split(c.currentEntry + j, s.addrCount);
    PositionOf(s, c, from, j, cyc, k);
    assert DueInCycle(s, c, from, k, TimeAt(s, c, from, j), cyc);
  }

  lemma DueSample(s: Setup, c: Cursor, from: nat, k: nat, at: nat) returns (j: nat)
    requires c.currentEntry < s.addrCount <= |s.entry|
    requires DueAt(s, c, from, k, at)
    ensures SlotAt(s, c.currentEntry, j) == k
    ensures TimeAt(s, c, from, j) == at
  {
    var cyc: nat :| DueInCycle(s, c, from, k, at, cyc);
    if cyc > 0 {
      TimesAtLeast(cyc, s.addrCount);
    }
    j := cyc * s.addrCount + k - c.currentEntry;
    PositionOf(s, c, from, j, cyc, k);
  }

  /** The promise of the Start command: the first entry is sampled on the first wakeup, entry k
      of cycle cyc exactly cyc * Rate plus the delays before entry k later, and at no other time. */
  lemma ScheduleAfterStart(s: Setup, c: Cursor, mem: Memory, from: nat, w: nat, k: nat, at: nat)
    requires SetupOk(s) && Coherent(s) && Processed(s)
    requires CursorOk(|s.entry|, c) && c.countdown == 1 && c.currentEntry == 0
    ensures Runnable(s)
    ensures SampledAt(Run(s, c, mem, from, w).events, k, at)
            <==> (k < s.addrCount && at <= from + w &&
                  exists cyc: nat :: at == from + 1 + cyc * s.rate + DelaySum(s.entry, k))
  {
    CoherentIsRunnable(s);
    SampledIffDue(s, c, mem, from, w, k, at, Run(s, c, mem, from, w).events);
    if DueAt(s, c, from, k, at) {
      var cyc: nat :| DueInCycle(s, c, from, k, at, cyc);
      assert at == from + 1 + cyc * s.rate + DelaySum(s.entry, k);
    }
    if k < s.addrCount && exists cyc: nat :: at == from + 1 + cyc * s.rate + DelaySum(s.entry, k) {
      var cyc: nat :| at == from + 1 + cyc * s.rate + DelaySum(s.entry, k);
      assert DueInCycle(s, c, from, k, at, cyc);
    }
  }

  lemma SampledOnceInside(s: Setup, c: Cursor, mem: Memory, from: nat, w: nat, events: seq<Event>, i: nat, j: nat)
    requires Runnable(s) && Inside(s, c)
    requires events == Run(s, c, mem, from, w).events
    requires i < j < |Samples(events)|
    ensures Samples(events)[i].at == Samples(events)[j].at ==> Samples(events)[i].slot != Samples(events)[j].slot
  {
    var m := RunEvents(s, c, mem, from, w, events);
    var list := SampleList(s, c, mem, from, m);
    if list[i].slot == list[j].slot {
      SameSlotLater(s, c, from, i, j);
    }
  }

  lemma SameSlotLater(s: Setup, c: Cursor, from: nat, i: nat, j: nat)
    requires Runnable(s) && Inside(s, c)
    requires i < j
    requires SlotAt(s, c.currentEntry, i) == SlotAt(s, c.currentEntry, j)
    ensures TimeAt(s, c, from, i) < TimeAt(s, c, from, j)
  {
    var n, total := s.addrCount, DelaySum(s.entry, s.addrCount);
    DelaySumPositive(s.entry, n);
    var ci, ki := Split(c.currentEntry + i, n);
    var cj, kj := Split(c.currentEntry + j, n);
    PositionOf(s, c, from, i, ci, ki);
    PositionOf(s, c, from, j, cj, kj);
    TimesLess(ci, cj, n);
    TimesDiff(ci, cj, total);
    TimesAtLeast(cj - ci, total);
  }

  // ----- packets

  /** The packets of an undisturbed run are exactly those whose time has come. */
  lemma PacketsOnTime(s: Setup, c: Cursor, mem: Memory, from: nat, w: nat, events: seq<Event>)
    requires Runnable(s) && Inside(s, c)
    requires events == Run(s, c, mem, from, w).events
    ensures SendTimes(events) == PacketTimes(s, c, from, |SendTimes(events)|)
    ensures forall q: nat :: q < |SendTimes(events)| <==> PacketTime(s, c, from, q) <= from + w
  {
    var m := RunEvents(s, c, mem, from, w, events);
    var count, k := Split(c.currentEntry + m, s.addrCount);
    PacketListIs(s, c, from, m, count, k);
    forall q: nat ensures q < count <==> PacketTime(s, c, from, q) <= from + w {
      PacketIsDue(s, c, from, m, from + w, count, k, q);
    }
  }

  lemma PacketIsDue(s: Setup, c: Cursor, from: nat, m: nat, now: nat, count: nat, k: nat, q: nat)
    requires c.currentEntry < s.addrCount <= |s.entry|
    requires DueBy(s, c, from, m, now)
    requires c.currentEntry + m == count * s.addrCount + k && k < s.addrCount
    ensures q < count <==> PacketTime(s, c, from, q) <= now
  {
    var i := LastSampleOf(s, c, q);
    LastSampleOfPacket(s, c, from, q, i);
    DueByIs(s, c, from, m, now, i);
    LastSampleBefore(s, c, m, count, k, q, i);
  }

  /** Number of the sample that packet q goes out with. */
  function LastSampleOf(s: Setup, c: Cursor, q: nat): (i: nat)
    requires c.currentEntry < s.addrCount
    ensures c.currentEntry + i == q * s.addrCount + s.addrCount - 1
  {
    q * s.addrCount + (s.addrCount - 1 - c.currentEntry)
  }

  lemma LastSampleBefore(s: Setup, c: Cursor, m: nat, count: nat, k: nat, q: nat, i: nat)
    requires c.currentEntry < s.addrCount
    requires c.currentEntry + m == count * s.addrCount + k && k < s.addrCount
    requires c.currentEntry + i == q * s.addrCount + s.addrCount - 1
    ensures i < m <==> q < count
  {
    var n := s.addrCount;
    if q < count {
      TimesDiff(q + 1, count, n);
      TimesDiff(q, q + 1, n);
    } else {
      TimesDiff(count, q, n);
    }
  }
}
