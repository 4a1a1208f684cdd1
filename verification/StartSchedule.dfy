/** The schedule as a user of the commands sees it: after a Start, in any run that came before. */
module StartSchedule {
  import opened Types
  import opened Summary
  import opened Engine
  import opened AnyTable
  import opened Schedule
  import opened ClosedForm
  import opened Liveness
  import opened Commands
  import opened Runs
  import opened Coherence

  // ----- wakeups of a stream are a run of the engine

  lemma {:induction false} ExecConcat(env: Env, mem: Memory, from: nat, s: Stream, a: seq<Action>, b: seq<Action>)
    requires StreamSized(s)
    requires ActionsSized(Size(s), SignatureLength(s), a) && ActionsSized(Size(s), SignatureLength(s), b)
    ensures ActionsSized(Size(s), SignatureLength(s), a + b) && Wakes(a + b) == Wakes(a) + Wakes(b)
    ensures Exec(env, mem, from, s, a + b) ==
            Exec(env, mem, from + Wakes(a), Exec(env, mem, from, s, a), b)
    decreases |b|
  {
    hide Perform, StreamSized;
    if b == [] {
      assert a + b == a;
    } else {
      var front := b[..|b| - 1];
      assert (a + b)[..|a + b| - 1] == a + front;
      ExecConcat(env, mem, from, s, a, front);
    }
  }

  lemma ExecOne(env: Env, mem: Memory, from: nat, s: Stream, a: Action)
    requires StreamSized(s) && ActionSized(Size(s), SignatureLength(s), a)
    ensures ActionsSized(Size(s), SignatureLength(s), [a])
    ensures Wakes([a]) == if a.Wake? then 1 else 0
    ensures Exec(env, mem, from, s, [a]) == Perform(env, mem, from + Wakes([a]), s, a)
  {
    hide Perform, StreamSized, ActionSized;
    var acts := [a];
    assert acts[..|acts| - 1] == [];
    assert Wakes([]) == 0;
    assert Exec(env, mem, from, s, acts[..|acts| - 1]) == s;
  }

  /** w wakeups and nothing else. */
  function Waking(w: nat): (r: seq<Action>)
    ensures |r| == w && forall i :: 0 <= i < w ==> r[i] == Wake
  {
    seq(w, _ => Wake)
  }

  /** A stream that the engine has run on to a cursor, producing these events. */
  function Advanced(s: Stream, r: Step): Stream {
    s.(local := s.local.(cursor := r.cursor), trace := s.trace + r.events)
  }

  lemma WakeAdvances(env: Env, mem: Memory, now: nat, s: Stream, p: Stream, before: Step, after: Step)
    requires StreamOk(s) && Runnable(s.local.setup) && !s.hung
    requires CursorOk(Size(s), before.cursor) && p == Advanced(s, before)
    requires
      var r := Wakeup(Table(s.local.setup, before.cursor), mem, now);
      after == Step(r.cursor, before.events + r.events)
    ensures StreamSized(p) && Perform(env, mem, now, p, Wake) == Advanced(s, after)
  {
    hide Wakeup;
    Associate(s.trace, before.events, Wakeup(Table(s.local.setup, before.cursor), mem, now).events);
  }

  /** Wakeups alone make a stream do what the engine's run says. */
  lemma {:induction false} WakesAreRun(env: Env, mem: Memory, from: nat, s: Stream, w: nat)
    requires StreamOk(s) && Runnable(s.local.setup) && !s.hung
    ensures StreamSized(s) && ActionsSized(Size(s), SignatureLength(s), Waking(w)) && Wakes(Waking(w)) == w
    ensures Exec(env, mem, from, s, Waking(w)) == Advanced(s, Run(s.local.setup, s.local.cursor, mem, from, w))
    decreases w
  {
    hide Perform, StreamOk, StreamSized, Wakeup;
    OkIsSized(s);
    if w == 0 {
      assert s.trace + [] == s.trace;
    } else {
      var c := s.local.cursor;
      SetupCursor(s);
      WakesAreRun(env, mem, from, s, w - 1);
      assert Waking(w)[..w - 1] == Waking(w - 1);
      WakeAdvances(env, mem, from + w, s, Exec(env, mem, from, s, Waking(w - 1)),
                   Run(s.local.setup, c, mem, from, w - 1), Run(s.local.setup, c, mem, from, w));
    }
  }

  lemma SetupCursor(s: Stream)
    requires StreamOk(s)
    ensures CursorOk(Size(s), s.local.cursor)
  {
  }

  // ----- a Start and the wakeups after it

  lemma StartedStream(env: Env, mem: Memory, now: nat, s: Stream, ok: bool)
    requires StreamOk(s) && Coherent(s.local.setup) && !s.hung
    ensures StreamSized(s)
    ensures
      var r := Perform(env, mem, now, s, Start(ok));
      && StreamOk(r) && Coherent(r.local.setup) && !r.hung && r.trace == s.trace
      && r.local.setup == s.local.setup.(enabled := ENABLED)
      && r.local.cursor.countdown == 1 && r.local.cursor.currentEntry == 0 && r.local.cursor.pktOffset == 0
  {
  }

  /** What a run adds to the trace. */
  ghost function NewEvents(env: Env, mem: Memory, from: nat, s: Stream, acts: seq<Action>): seq<Event>
    requires StreamSized(s) && ActionsSized(Size(s), SignatureLength(s), acts)
  {
    var r := Exec(env, mem, from, s, acts);
    if |s.trace| <= |r.trace| then r.trace[|s.trace|..] else []
  }

  /** The state before the wakeups. */
  lemma StartThenWake(env: Env, mem: Memory, from: nat, s: Stream, ok: bool, w: nat) returns (r: Stream)
    requires StreamOk(s) && Coherent(s.local.setup) && !s.hung && s.local.setup.rate > 0
    ensures StreamSized(s) && ActionsSized(Size(s), SignatureLength(s), [Start(ok)] + Waking(w))
    ensures r == Perform(env, mem, from, s, Start(ok)) && StreamOk(r) && Coherent(r.local.setup)
    ensures Runnable(r.local.setup)
    ensures r.local.cursor.countdown == 1 && r.local.cursor.currentEntry == 0
    ensures r.local.setup == s.local.setup.(enabled := ENABLED)
    ensures CursorOk(Size(s), r.local.cursor)
    ensures NewEvents(env, mem, from, s, [Start(ok)] + Waking(w)) ==
            Run(r.local.setup, r.local.cursor, mem, from, w).events
  {
    hide Perform, Run;
    StartedStream(env, mem, from, s, ok);
    r := Perform(env, mem, from, s, Start(ok));
    CoherentIsRunnable(r.local.setup);
    WakesAreRun(env, mem, from, r, w);
    ExecOne(env, mem, from, s, Start(ok));
    ExecConcat(env, mem, from, s, [Start(ok)], Waking(w));
  }

  /** The promise of the Start command, for the command itself: in the w wakeups after it entry k is
      sampled exactly on the first wakeup, shifted by whole rates and by the delays before entry k;
      and packets go out as PacketCountAfterStart counts them. The buffer access may fail. */
  lemma ScheduleAfterStartCommand(env: Env, mem: Memory, from: nat, s: Stream, ok: bool, w: nat, k: nat, at: nat)
    requires StreamOk(s) && Coherent(s.local.setup) && !s.hung && s.local.setup.rate > 0
    ensures StreamSized(s) && ActionsSized(Size(s), SignatureLength(s), [Start(ok)] + Waking(w))
    ensures
      var events := NewEvents(env, mem, from, s, [Start(ok)] + Waking(w));
      var setup := s.local.setup;
      && setup.addrCount <= |setup.entry|
      && (SampledAt(events, k, at) <==>
          (k < setup.addrCount && at <= from + w &&
           exists cyc: nat :: at == from + 1 + cyc * setup.rate + DelaySum(setup.entry, k)))
  {
    hide Run, Perform, NewEvents, Exec;
    var r := StartThenWake(env, mem, from, s, ok, w);
    ScheduleAfterStart(r.local.setup, r.local.cursor, mem, from, w, k, at);
  }

  /** And the packets: how many and when. */
  lemma PacketsAfterStartCommand(env: Env, mem: Memory, from: nat, s: Stream, ok: bool, w: nat)
    requires StreamOk(s) && Coherent(s.local.setup) && !s.hung && s.local.setup.rate > 0
    ensures StreamSized(s) && ActionsSized(Size(s), SignatureLength(s), [Start(ok)] + Waking(w))
    ensures
      var times := SendTimes(NewEvents(env, mem, from, s, [Start(ok)] + Waking(w)));
      var setup := s.local.setup;
      && 0 < setup.addrCount <= |setup.entry|
      && var lead := setup.rate - setup.entry[setup.addrCount - 1].delay;
      && |times| == (if w < 1 + lead then 0 else (w - 1 - lead) / setup.rate + 1)
      && forall q :: 0 <= q < |times| ==> times[q] == from + 1 + lead + q * setup.rate
  {
    hide Run, Perform, NewEvents, Exec, SendTimes;
    var r := StartThenWake(env, mem, from, s, ok, w);
    PacketCountAfterStart(r.local.setup, r.local.cursor, mem, from, w,
                          Run(r.local.setup, r.local.cursor, mem, from, w).events);
  }

  /** After any run from a coherent state in which no lost Jam did harm and loads had legal lengths, a
      Start is followed by its schedule, counted from the wakeups that came before. */
  lemma StartAfterAnyRun(env: Env, mem: Memory, from: nat, s: Stream, acts: seq<Action>, ok: bool, w: nat,
                         k: nat, at: nat, p: Stream)
    requires StreamOk(s) && ActionsLegal(Size(s), SignatureLength(s), acts)
    requires StreamSized(s) && ActionsSized(Size(s), SignatureLength(s), acts)
    requires Coherent(s.local.setup) && !s.hung && LostJamsHarmless(env, mem, from, s, acts)
    requires p == Exec(env, mem, from, s, acts) && p.local.setup.rate > 0
    ensures ActionsSized(Size(s), SignatureLength(s), acts + ([Start(ok)] + Waking(w)))
    ensures
      var base := from + Wakes(acts);
      var r := Exec(env, mem, from, s, acts + ([Start(ok)] + Waking(w)));
      var setup := p.local.setup;
      && setup.addrCount <= |setup.entry|
      && |p.trace| <= |r.trace|
      && (SampledAt(r.trace[|p.trace|..], k, at) <==>
          (k < setup.addrCount && at <= base + w &&
           exists cyc: nat :: at == base + 1 + cyc * setup.rate + DelaySum(setup.entry, k)))
  {
    hide Perform, Coherent, SampledAt;
    LegalRunIsCoherent(env, mem, from, s, acts, |acts|);
    assert acts[..|acts|] == acts;
    var base := from + Wakes(acts);
    ScheduleAfterStartCommand(env, mem, base, p, ok, w, k, at);
    ExecConcat(env, mem, from, s, acts, [Start(ok)] + Waking(w));
    TraceGrows(env, mem, base, p, [Start(ok)] + Waking(w));
  }

  lemma {:induction false} TraceGrows(env: Env, mem: Memory, from: nat, s: Stream, acts: seq<Action>)
    requires StreamSized(s) && ActionsSized(Size(s), SignatureLength(s), acts)
    ensures |s.trace| <= |Exec(env, mem, from, s, acts).trace|
    decreases |acts|
  {
    hide WakeupAny, Woken;
    if acts != [] {
      TraceGrows(env, mem, from, s, acts[..|acts| - 1]);
    }
  }
}
