/** Packet counts, and when the next packet comes from any position. */
module Liveness {
  import opened Types
  import opened Summary
  import opened Engine
  import opened Schedule
  import opened ClosedForm

  lemma OnePacketInside(s: Setup, c: Cursor, mem: Memory, from: nat, w: nat, events: seq<Event>, i: nat, j: nat)
    requires Runnable(s) && Inside(s, c)
    requires events == Run(s, c, mem, from, w).events
    requires i < j < |SendTimes(events)|
    ensures from < SendTimes(events)[i] < SendTimes(events)[j]
  {
    hide Run, SendTimes, PacketTime, Runnable, DelaySum;
    PacketsOnTime(s, c, mem, from, w, events);
    PacketTimesGrow(s, c, from, i, j);
  }

  lemma PacketTimesGrow(s: Setup, c: Cursor, from: nat, i: nat, j: nat)
    requires Runnable(s) && Inside(s, c)
    requires i < j
    ensures from < PacketTime(s, c, from, i) < PacketTime(s, c, from, j)
  {
    var total := DelaySum(s.entry, s.addrCount);
    DelaySumPositive(s.entry, s.addrCount);
    DelaySumMonotone(s.entry, c.currentEntry, s.addrCount - 1);
    hide DelaySum;
    TimesDiff(0, i, total);
    TimesDiff(i, j, total);
    TimesAtLeast(j - i, total);
    assert PacketTime(s, c, from, i) >= from + Waits(c.countdown) + i * total;
    assert PacketTime(s, c, from, j) - PacketTime(s, c, from, i) == j * total - i * total;
  }

  lemma QuotientIs(x: nat, d: nat, q: nat)
    requires d > 0
    requires q * d <= x < (q + 1) * d
    ensures x / d == q
  {
    var p, r := x / d, x % d;
    assert x == p * d + r;
    TimesDiff(q, q + 1, d);
    TimesDiff(p, p + 1, d);
    TimesLess(p, q + 1, d);
    TimesLess(q, p + 1, d);
  }

  /** Number of packets in the first w wakeups after a start. With all delays but the last at
      zero and a rate of 10 this is the first, the eleventh and the twenty-first wakeup. */
  lemma PacketCountAfterStart(s: Setup, c: Cursor, mem: Memory, from: nat, w: nat, events: seq<Event>)
    requires SetupOk(s) && Coherent(s) && Processed(s)
    requires CursorOk(|s.entry|, c) && c.countdown == 1 && c.currentEntry == 0
    requires Runnable(s) && events == Run(s, c, mem, from, w).events
    ensures
      var lead := s.rate - s.entry[s.addrCount - 1].delay;
      && |SendTimes(events)| == (if w < 1 + lead then 0 else (w - 1 - lead) / s.rate + 1)
      && forall q :: 0 <= q < |SendTimes(events)| ==> SendTimes(events)[q] == from + 1 + lead + q * s.rate
  {
    hide PacketTime, Run, SendTimes, DelaySum, Coherent;
    PacketsOnTime(s, c, mem, from, w, events);
    var count := |SendTimes(events)|;
    PacketTimeAfterStart(s, c, from, 0);
    var lead := s.rate - s.entry[s.addrCount - 1].delay;
    var first: nat := 1 + lead;
    forall q: nat ensures q < count <==> Periodic(first, s.rate, q) <= w {
      PacketTimeAfterStart(s, c, from, q);
    }
    PacketCountIs(w, first, s.rate, count);
    forall q | 0 <= q < count ensures SendTimes(events)[q] == from + 1 + lead + q * s.rate {
      PacketTimeAfterStart(s, c, from, q);
    }
  }

  function Periodic(first: nat, period: nat, q: nat): nat {
    first + q * period
  }

  lemma PacketTimeAfterStart(s: Setup, c: Cursor, from: nat, q: nat)
    requires SetupOk(s) && Coherent(s) && Processed(s)
    requires c.countdown == 1 && c.currentEntry == 0
    ensures s.rate == DelaySum(s.entry, s.addrCount - 1) + s.entry[s.addrCount - 1].delay
    ensures PacketTime(s, c, from, q) == from + 1 + DelaySum(s.entry, s.addrCount - 1) + q * s.rate
  {
  }

  /** If exactly the first count multiples of d, shifted by first, are at most w, count is a quotient. */
  lemma PacketCountIs(w: nat, first: nat, d: nat, count: nat)
    requires d > 0
    requires forall q: nat :: q < count <==> Periodic(first, d, q) <= w
    ensures count == if w < first then 0 else (w - first) / d + 1
  {
    assert 0 < count <==> Periodic(first, d, 0) <= w;
    if count > 0 {
      TimesAtLeast(count, d);
      TimesDiff(1, count, d);
      assert count - 1 < count <==> Periodic(first, d, count - 1) <= w;
      assert count < count <==> Periodic(first, d, count) <= w;
      QuotientIs(w - first, d, count - 1);
    }
  }

  // ----- a table that shrank under the engine

  /** Cursor after the wakeup that sends the packet of a shortened table. */
  function AfterOverrun(s: Setup, c: Cursor): Cursor
    requires 0 < s.addrCount <= |s.entry|
  {
    Restarted(c, s.entry[s.addrCount - 1].delay)
  }

  lemma {:induction false} RunFromOverrun(s: Setup, c: Cursor, mem: Memory, from: nat, w: nat, end: Step, tail: Step)
    requires Runnable(s) && CursorOk(|s.entry|, c) && c.currentEntry >= s.addrCount
    requires end == Run(s, c, mem, from, w + 1)
    requires tail == Run(s, AfterOverrun(s, c), mem, from + 1, w)
    ensures end.cursor == tail.cursor
    ensures end.events == [Send(from + 1, PacketOf(s, c.data))] + tail.events
    decreases w
  {
    hide Wakeup, Run, PacketOf, HasDelay;
    if w == 0 {
      OverrunWakeup(s, c, mem, from);
    } else {
      var send := [Send(from + 1, PacketOf(s, c.data))];
      var end0 := Run(s, c, mem, from, w);
      var tail0 := Run(s, AfterOverrun(s, c), mem, from + 1, w - 1);
      RunFromOverrun(s, c, mem, from, w - 1, end0, tail0);
      RunNext(s, c, mem, from, w + 1, end0, end);
      RunNext(s, AfterOverrun(s, c), mem, from + 1, w, tail0, tail);
      var more := Wakeup(Table(s, end0.cursor), mem, from + w + 1).events;
      PrependKept(send, end0.events, tail0.events, more, end.events, tail.events);
    }
  }

  lemma PrependKept(a: seq<Event>, b0: seq<Event>, c0: seq<Event>, more: seq<Event>, b: seq<Event>, c: seq<Event>)
    requires b0 == a + c0 && b == b0 + more && c == c0 + more
    ensures b == a + c
  {
  }

  lemma OverrunWakeup(s: Setup, c: Cursor, mem: Memory, from: nat)
    requires Runnable(s) && CursorOk(|s.entry|, c) && c.currentEntry >= s.addrCount
    ensures Run(s, c, mem, from, 1) == Step(AfterOverrun(s, c), [Send(from + 1, PacketOf(s, c.data))])
    ensures Run(s, AfterOverrun(s, c), mem, from + 1, 0) == Step(AfterOverrun(s, c), [])
  {
    hide Drain, Pass;
    assert Run(s, c, mem, from, 0) == Step(c, []);
  }

  lemma RunNext(s: Setup, c: Cursor, mem: Memory, from: nat, w: nat, p: Step, r: Step)
    requires Runnable(s) && CursorOk(|s.entry|, c) && w > 0
    requires p == Run(s, c, mem, from, w - 1)
    requires r == Run(s, c, mem, from, w)
    ensures r.cursor == Wakeup(Table(s, p.cursor), mem, from + w).cursor
    ensures r.events == p.events + Wakeup(Table(s, p.cursor), mem, from + w).events
  {
    hide Wakeup;
  }

  lemma {:induction false} PrependSend(at: nat, packet: Packet, b: seq<Event>)
    ensures Samples([Send(at, packet)] + b) == Samples(b)
    ensures SendTimes([Send(at, packet)] + b) == [at] + SendTimes(b)
  {
    var a := [Send(at, packet)];
    if b == [] {
      assert a + b == a;
      assert a[..0] == [];
    } else {
      var front, last := b[..|b| - 1], b[|b| - 1];
      PrependSend(at, packet, front);
      assert b == front + [last];
      Associate(a, front, [last]);
      AppendOne(a + front, last);
      AppendOne(front, last);
    }
  }

  /** The events of a run from a shortened table: its packet first, then those of a run from entry 0. */
  lemma OverrunEvents(s: Setup, c: Cursor, mem: Memory, from: nat, w: nat, events: seq<Event>, tail: seq<Event>)
    requires Runnable(s) && CursorOk(|s.entry|, c) && c.currentEntry >= s.addrCount && w > 0
    requires events == Run(s, c, mem, from, w).events
    requires tail == Run(s, AfterOverrun(s, c), mem, from + 1, w - 1).events
    ensures Samples(events) == Samples(tail)
    ensures SendTimes(events) == [from + 1] + SendTimes(tail)
  {
    hide Run, Samples, SendTimes;
    RunFromOverrun(s, c, mem, from, w - 1, Run(s, c, mem, from, w), Run(s, AfterOverrun(s, c), mem, from + 1, w - 1));
    PrependSend(from + 1, PacketOf(s, c.data), tail);
  }

  lemma NothingYet(s: Setup, c: Cursor, mem: Memory, from: nat)
    requires Runnable(s) && CursorOk(|s.entry|, c)
    ensures Run(s, c, mem, from, 0).events == [] && Samples([]) == [] && SendTimes([]) == []
  {
  }

  /** At most one packet leaves a table in one wakeup, wherever the table stands. */
  lemma OnePacketPerWakeup(s: Setup, c: Cursor, mem: Memory, from: nat, w: nat, events: seq<Event>, i: nat, j: nat)
    requires Runnable(s) && CursorOk(|s.entry|, c)
    requires events == Run(s, c, mem, from, w).events
    requires i < j < |SendTimes(events)|
    ensures SendTimes(events)[i] < SendTimes(events)[j]
  {
    hide Run, SendTimes, Samples;
    if c.currentEntry < s.addrCount {
      OnePacketInside(s, c, mem, from, w, events, i, j);
    } else {
      NothingYet(s, c, mem, from);
      var tail := Run(s, AfterOverrun(s, c), mem, from + 1, w - 1).events;
      OverrunEvents(s, c, mem, from, w, events, tail);
      OnePacketAfterOverrun(s, AfterOverrun(s, c), mem, from + 1, w - 1, tail, i, j);
    }
  }

  lemma OnePacketAfterOverrun(s: Setup, c: Cursor, mem: Memory, from: nat, w: nat, events: seq<Event>, i: nat, j: nat)
    requires Runnable(s) && Inside(s, c)
    requires events == Run(s, c, mem, from, w).events
    requires i < j < |SendTimes(events)| + 1
    ensures ([from] + SendTimes(events))[i] < ([from] + SendTimes(events))[j]
  {
    hide Run, SendTimes, PacketTime, Runnable, DelaySum;
    if i > 0 {
      OnePacketInside(s, c, mem, from, w, events, i - 1, j - 1);
    } else {
      PacketsOnTime(s, c, mem, from, w, events);
      PacketTimesGrow(s, c, from, j - 1, j);
    }
  }

  /** No entry is sampled twice in one wakeup, wherever the table stands. */
  lemma SampledOncePerWakeup(s: Setup, c: Cursor, mem: Memory, from: nat, w: nat, events: seq<Event>, i: nat, j: nat)
    requires Runnable(s) && CursorOk(|s.entry|, c)
    requires events == Run(s, c, mem, from, w).events
    requires i < j < |Samples(events)|
    ensures Samples(events)[i].at == Samples(events)[j].at ==> Samples(events)[i].slot != Samples(events)[j].slot
  {
    hide Run, Samples, SendTimes;
    if c.currentEntry < s.addrCount {
      SampledOnceInside(s, c, mem, from, w, events, i, j);
    } else {
      NothingYet(s, c, mem, from);
      var c1 := AfterOverrun(s, c);
      var tail := Run(s, c1, mem, from + 1, w - 1).events;
      OverrunEvents(s, c, mem, from, w, events, tail);
      SampledOnceInside(s, c1, mem, from + 1, w - 1, tail, i, j);
    }
  }

  /** The shrink branch: the packet goes out on the very next wakeup, and the first entry is
      sampled as many wakeups later as the last active delay says - which is 2^32, through the
      wrap of the countdown, if that delay is zero. */
  lemma OverrunRecovers(s: Setup, c: Cursor, mem: Memory, from: nat, w: nat, events: seq<Event>)
    requires Runnable(s) && CursorOk(|s.entry|, c) && c.currentEntry >= s.addrCount
    requires events == Run(s, c, mem, from, w + 1).events
    ensures SendTimes(events) != [] && SendTimes(events)[0] == from + 1
    ensures Samples(events) != [] <==> w >= Waits(s.entry[s.addrCount - 1].delay)
    ensures Samples(events) != [] ==>
              && Samples(events)[0].at == from + 1 + Waits(s.entry[s.addrCount - 1].delay)
              && Samples(events)[0].slot == 0
  {
    var c1 := AfterOverrun(s, c);
    var tail := Run(s, c1, mem, from + 1, w).events;
    OverrunEvents(s, c, mem, from, w + 1, events, tail);
    var m := RunEvents(s, c1, mem, from + 1, w, tail);
    DueByIs(s, c1, from + 1, m, from + 1 + w, 0);
  }

  /** Wakeups until the next packet, counted from a cursor anywhere in or past the table. */
  function NextPacket(s: Setup, c: Cursor): nat
    requires 0 < s.addrCount <= |s.entry|
  {
    if c.currentEntry >= s.addrCount then 1
    else
      DelaySumMonotone(s.entry, c.currentEntry, s.addrCount - 1);
      Waits(c.countdown) + (DelaySum(s.entry, s.addrCount - 1) - DelaySum(s.entry, c.currentEntry))
  }

  /** Bounded liveness: the next packet comes exactly NextPacket wakeups from now. */
  lemma NextPacketArrives(s: Setup, c: Cursor, mem: Memory, from: nat, w: nat, events: seq<Event>)
    requires Runnable(s) && CursorOk(|s.entry|, c)
    requires events == Run(s, c, mem, from, w).events
    ensures SendTimes(events) != [] <==> w >= NextPacket(s, c)
    ensures SendTimes(events) != [] ==> SendTimes(events)[0] == from + NextPacket(s, c)
  {
    hide Run, SendTimes, DelaySum;
    if c.currentEntry < s.addrCount {
      PacketsOnTime(s, c, mem, from, w, events);
      FirstPacketTime(s, c, from);
      assert 0 < |SendTimes(events)| <==> PacketTime(s, c, from, 0) <= from + w;
    } else if w > 0 {
      OverrunRecovers(s, c, mem, from, w - 1, events);
    } else {
      NothingYet(s, c, mem, from);
    }
  }

  lemma FirstPacketTime(s: Setup, c: Cursor, from: nat)
    requires c.currentEntry < s.addrCount <= |s.entry|
    ensures PacketTime(s, c, from, 0) == from + NextPacket(s, c)
  {
  }
}
