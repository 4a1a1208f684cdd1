/** The summary fields against the entries, over every run: what keeps them right, and what a Jam that
    loses its buffer access does to them. */
module Coherence {
  import opened Types
  import opened Summary
  import opened Engine
  import opened AnyTable
  import opened Signatures
  import opened Commands
  import opened Runs

  // ----- one Jam

  /** What a Jam that passes its checks but loses its buffer access must be to do no harm: behind the
      first null entry, or of the same length and - for a non-null entry - the same delay. */
  predicate HarmlessIfLost(s: Setup, slot: nat, e: ControlEntry)
    requires slot < |s.entry|
  {
    slot > s.addrCount
    || (e.length == s.entry[slot].length && (e.length == 0 || e.delay == s.entry[slot].delay))
  }

  /** The exception to a right summary, exactly: an accepted Jam whose buffer access fails leaves the
      summary right if and only if it is harmless, whatever lengths the entries have. */
  lemma FailedJamCoherence(s: Stream, slot: nat, e: ControlEntry, le: LoadEntry)
    requires StreamSized(s) && Summarises(s.local.setup) && slot < Size(s)
    requires e.length == 0 ==> e.delay == 0
    ensures Summarises(Jammed(s, slot, e, le, false).local.setup) <==> HarmlessIfLost(s.local.setup, slot, e)
  {
    var entry := s.local.setup.entry;
    var n := s.local.setup.addrCount;
    var entry' := entry[slot := e];
    SumsAfterUpdate(entry, slot, e, n);
    if (slot < n && e.length != 0) || slot > n || (slot == n && e.length == 0) {
      ActiveCountIs(entry', n);
      if slot < n {
        SameResidue(LengthSum(entry, n), entry[slot].length, e.length);
      }
    } else if slot < n {
      ActiveCountIs(entry', slot);
    } else {
      assert ActiveCount(entry') != n by {
        assert entry'[slot].length != 0;
      }
    }
  }

  /** In 16 bits a sum shows the exchange of one 16-bit term for another. */
  lemma SameResidue(sum: nat, a: u16, b: u16)
    ensures (sum + (b - a)) % U16_SPAN == sum % U16_SPAN <==> a == b
  {
    var x, y := sum + (b - a), sum;
    if x % U16_SPAN == y % U16_SPAN {
      assert x - y == (x / U16_SPAN - y / U16_SPAN) * U16_SPAN;
      assert -U16_SPAN < x - y < U16_SPAN;
    }
  }

  /** A Jam that keeps its buffer access, is rejected, or is harmless. */
  predicate JamHarmless(env: Env, s: Stream, a: Action)
    requires a.Jam? && Size(s) == |s.buffer.entry|
  {
    || a.ok
    || !ValidId(a.entryId, Size(s))
    || JamEntries(env, a.length, a.delay, a.address).None?
    || HarmlessIfLost(s.local.setup, a.entryId - 1, JamEntries(env, a.length, a.delay, a.address).value.0)
  }

  lemma JamCoherentIff(env: Env, s: Stream, a: Action)
    requires StreamSized(s) && a.Jam? && Summarises(s.local.setup)
    ensures Summarises(JamDwell(env, s, a.entryId, a.length, a.delay, a.address, a.ok).local.setup) <==>
            JamHarmless(env, s, a)
  {
    hide Summarises, HarmlessIfLost;
    var entries := JamEntries(env, a.length, a.delay, a.address);
    if ValidId(a.entryId, Size(s)) && entries.Some? && !a.ok {
      FailedJamCoherence(s, a.entryId - 1, entries.value.0, entries.value.1);
    }
    if ValidId(a.entryId, Size(s)) && entries.Some? && a.ok {
      JamRestores(env, s, a);
    }
  }

  /** An accepted Jam that reaches the buffer recomputes the summary, whatever it was before. */
  lemma JamRestores(env: Env, s: Stream, a: Action)
    requires StreamSized(s) && a.Jam? && a.ok
    requires ValidId(a.entryId, Size(s)) && JamEntries(env, a.length, a.delay, a.address).Some?
    ensures Summarises(JamDwell(env, s, a.entryId, a.length, a.delay, a.address, a.ok).local.setup)
  {
    hide Summarises, Summarised;
    var e := JamEntries(env, a.length, a.delay, a.address).value.0;
    SummaryIsRight(s.local.setup.(entry := s.local.setup.entry[a.entryId - 1 := e]));
  }

  lemma CopySummarises(env: Env, tbl: LoadTable)
    requires |tbl.entry| <= MAX_TABLE_SIZE
    ensures Summarises(CopyOf(env, tbl))
  {
    hide Summarises, Summarised;
    SummaryIsRight(
      Setup(tbl.enabled % U16_SPAN, 0, 0, 0, CopyEntries(env, tbl.entry), CopySignature(tbl.signature)));
  }

  // ----- one step

  /** Only a harmful lost Jam makes a right summary wrong. */
  lemma PerformSummarisesIff(env: Env, mem: Memory, now: nat, s: Stream, a: Action)
    requires StreamSized(s) && ActionSized(Size(s), SignatureLength(s), a)
    requires Summarises(s.local.setup)
    ensures Summarises(Perform(env, mem, now, s, a).local.setup) <==>
            (a.Jam? && !s.hung ==> JamHarmless(env, s, a))
  {
    hide WakeupAny, Woken, JamHarmless, JamDwell, CopyOf;
    if a.Jam? {
      JamCoherentIff(env, s, a);
    }
    if a.Load? {
      CopySummarises(env, a.tbl);
    }
  }

  /** From a right summary a wakeup hangs only by writing outside the data area. */
  lemma HangsByWriting(env: Env, mem: Memory, now: nat, s: Stream, a: Action)
    requires StreamSized(s) && ActionSized(Size(s), SignatureLength(s), a)
    requires Summarises(s.local.setup) && !s.hung
    ensures Perform(env, mem, now, s, a).hung ==> a.Wake? && Overwrites(s.local, mem, now)
  {
    hide Summarised, Iterate;
    if a.Wake? && Processed(s.local.setup) {
      SummaryHasDelay(s.local.setup);
    }
  }

  /** The summary is right again with the next accepted Jam that reaches the buffer, or the next load
      that is copied in - however stale it was. DataSize is then the size of the packet if that fits. */
  lemma CoherenceRestored(env: Env, mem: Memory, now: nat, s: Stream, a: Action)
    requires StreamSized(s) && ActionSized(Size(s), SignatureLength(s), a) && !s.hung
    requires
      || (a.Load? && a.ok)
      || (a.Jam? && a.ok && ValidId(a.entryId, Size(s)) && JamEntries(env, a.length, a.delay, a.address).Some?)
    ensures
      var r := Perform(env, mem, now, s, a).local.setup;
      Summarises(r) && (Coherent(r) <==> SizeFits(r))
  {
    hide JamDwell, CopyOf, Summarises, SizeFits, Coherent;
    CoherentIs(Perform(env, mem, now, s, a).local.setup);
    if a.Load? {
      CopySummarises(env, a.tbl);
    } else {
      JamRestores(env, s, a);
    }
  }

  // ----- runs

  /** Every Jam of a run that loses its buffer access is rejected or harmless where it arrives. */
  ghost predicate LostJamsHarmless(env: Env, mem: Memory, from: nat, s: Stream, acts: seq<Action>)
    requires StreamSized(s) && ActionsSized(Size(s), SignatureLength(s), acts)
  {
    forall k :: 0 <= k < |acts| && acts[k].Jam? && !Before(env, mem, from, s, acts, k).hung ==>
      JamHarmless(env, Before(env, mem, from, s, acts, k), acts[k])
  }

  /** The summary, exactly: its fields are the sums of the active entries, each in its width, in every
      state of a run if and only if every Jam that loses its buffer access is rejected or harmless.
      They are the sums themselves if moreover the active lengths never add up to 2^16. */
  lemma RunIsCoherentIff(env: Env, mem: Memory, from: nat, s: Stream, acts: seq<Action>)
    requires StreamSized(s) && ActionsSized(Size(s), SignatureLength(s), acts)
    requires Summarises(s.local.setup)
    ensures (forall k :: 0 <= k <= |acts| ==> Summarises(Before(env, mem, from, s, acts, k).local.setup)) <==>
            LostJamsHarmless(env, mem, from, s, acts)
    ensures (forall k :: 0 <= k <= |acts| ==> Coherent(Before(env, mem, from, s, acts, k).local.setup)) <==>
            && LostJamsHarmless(env, mem, from, s, acts)
            && forall k :: 0 <= k <= |acts| ==> SizeFits(Before(env, mem, from, s, acts, k).local.setup)
  {
    hide Perform, Exec, Summarises, SizeFits, Coherent, JamHarmless;
    forall k | 0 <= k <= |acts|
      ensures
        var p := Before(env, mem, from, s, acts, k).local.setup;
        Coherent(p) <==> Summarises(p) && SizeFits(p)
    {
      CoherentIs(Before(env, mem, from, s, acts, k).local.setup);
    }
    if forall k :: 0 <= k <= |acts| ==> Summarises(Before(env, mem, from, s, acts, k).local.setup) {
      forall k | 0 <= k < |acts| && acts[k].Jam? && !Before(env, mem, from, s, acts, k).hung
        ensures JamHarmless(env, Before(env, mem, from, s, acts, k), acts[k])
      {
        assert Summarises(Before(env, mem, from, s, acts, k + 1).local.setup);
        StepSummarises(env, mem, from, s, acts, k);
      }
    }
    if LostJamsHarmless(env, mem, from, s, acts) {
      forall k | 0 <= k <= |acts|
        ensures Summarises(Before(env, mem, from, s, acts, k).local.setup)
      {
        HarmlessSummarises(env, mem, from, s, acts, k);
      }
    }
  }

  lemma StepSummarises(env: Env, mem: Memory, from: nat, s: Stream, acts: seq<Action>, k: nat)
    requires StreamSized(s) && ActionsSized(Size(s), SignatureLength(s), acts) && k < |acts|
    requires Summarises(Before(env, mem, from, s, acts, k).local.setup)
    ensures
      var p := Before(env, mem, from, s, acts, k);
      Summarises(Before(env, mem, from, s, acts, k + 1).local.setup) <==>
      (acts[k].Jam? && !p.hung ==> JamHarmless(env, p, acts[k]))
  {
    hide Perform, Exec, Summarises, JamHarmless;
    var p := Before(env, mem, from, s, acts, k);
    BeforeNext(env, mem, from, s, acts, k, p);
    PerformSummarisesIff(env, mem, from + Wakes(acts[..k + 1]), p, acts[k]);
  }

  lemma {:induction false} HarmlessSummarises(env: Env, mem: Memory, from: nat, s: Stream, acts: seq<Action>, k: nat)
    requires StreamSized(s) && ActionsSized(Size(s), SignatureLength(s), acts)
    requires Summarises(s.local.setup) && k <= |acts|
    requires LostJamsHarmless(env, mem, from, s, acts)
    ensures Summarises(Before(env, mem, from, s, acts, k).local.setup)
    decreases k
  {
    hide Perform, Summarises, JamHarmless;
    if k > 0 {
      HarmlessSummarises(env, mem, from, s, acts, k - 1);
      StepSummarises(env, mem, from, s, acts, k - 1);
    }
  }

  /** With loads of legal lengths such a run neither hangs nor outgrows DataSize. */
  lemma {:induction false} LegalRunIsCoherent(env: Env, mem: Memory, from: nat, s: Stream, acts: seq<Action>, k: nat)
    requires StreamOk(s) && ActionsLegal(Size(s), SignatureLength(s), acts)
    requires StreamSized(s) && ActionsSized(Size(s), SignatureLength(s), acts)
    requires Coherent(s.local.setup) && !s.hung && k <= |acts|
    requires LostJamsHarmless(env, mem, from, s, acts)
    ensures StreamOk(Before(env, mem, from, s, acts, k))
    ensures Coherent(Before(env, mem, from, s, acts, k).local.setup)
    ensures !Before(env, mem, from, s, acts, k).hung
    decreases k
  {
    hide Perform, Coherent, JamHarmless, Summarises, StreamOk, StreamSized, SizeFits;
    CoherentIs(s.local.setup);
    HarmlessSummarises(env, mem, from, s, acts, k);
    OkFits(Before(env, mem, from, s, acts, k));
    if k > 0 {
      var p := Before(env, mem, from, s, acts, k - 1);
      LegalRunIsCoherent(env, mem, from, s, acts, k - 1);
      BeforeNext(env, mem, from, s, acts, k - 1, p);
      LegalNotHung(env, mem, from + Wakes(acts[..k]), p, acts[k - 1]);
    }
  }

  lemma OkFits(s: Stream)
    requires StreamOk(s)
    ensures Coherent(s.local.setup) <==> Summarises(s.local.setup)
  {
    CoherentIs(s.local.setup);
    LegalSizeFits(s.local.setup);
  }

  lemma LegalNotHung(env: Env, mem: Memory, now: nat, s: Stream, a: Action)
    requires StreamOk(s) && StreamSized(s) && ActionSized(Size(s), SignatureLength(s), a)
    requires Coherent(s.local.setup) && !s.hung
    ensures !Perform(env, mem, now, s, a).hung
  {
    hide Wakeup, Summarised;
    if a.Wake? && Processed(s.local.setup) {
      CoherentHasDelay(s.local.setup);
    }
  }

  /** When a lost Jam makes the next due wakeup hang: exactly when it takes away the one delay the
      rate consisted of. The rate field, left as it was, still lets the engine in. */
  lemma FailedJamHangs(s: Stream, slot: nat, e: ControlEntry, le: LoadEntry)
    requires StreamSized(s) && Summarises(s.local.setup) && slot < Size(s)
    requires Processed(s.local.setup) && s.local.cursor.countdown == 1
    requires s.local.cursor.currentEntry < s.local.setup.addrCount
    ensures Hangs(Jammed(s, slot, e, le, false).local) <==>
            slot < s.local.setup.addrCount && e.delay == 0 && s.local.setup.entry[slot].delay == s.local.setup.rate
  {
    var entry, n := s.local.setup.entry, s.local.setup.addrCount;
    SumsAfterUpdate(entry, slot, e, n);
    DelaySumPositive(entry, n);
    DelaySumPositive(entry[slot := e], n);
    if slot < n {
      DelaySumMonotone(entry, slot + 1, n);
    }
  }
}
