/** Concrete runs in which a promise fails whose exact condition is proved elsewhere. */
module Witnesses {
  import opened Types
  import opened Summary
  import opened Engine
  import opened Commands
  import opened Runs
  import opened Coherence
  import opened Recovery

  /** Every address is good and no symbol is known. */
  function AnyAddress(): Env {
    Env(0x1_0000_0000, _ => None, (_, _) => true)
  }

  /** Every read fails, so that packets keep their bytes. */
  function NoMemory(): Memory {
    (_: ReadRequest) => None
  }

  const ABSOLUTE := SymAddr(0, "")

  /** The empty signature, in a field of four characters. */
  const NO_TEXT := "\0\0\0\0"

  /** A table of one-byte dwells with the given delays, just started. */
  function StartedTable(entry: seq<ControlEntry>, load: seq<LoadEntry>, rate: u32): Stream
    requires |entry| <= MAX_TABLE_SIZE
  {
    Stream(Table(Setup(ENABLED, |entry|, rate, |entry|, entry, NO_TEXT),
                 Cursor(1, 0, 0, seq(4 * |entry|, _ => 0))),
           LoadTable(ENABLED, NO_TEXT, load), [], false)
  }

  lemma FailedPass(s: Setup, c: Cursor, now: nat)
    requires SetupOk(s) && CursorOk(|s.entry|, c) && c.currentEntry < s.addrCount - 1
    requires s.entry[c.currentEntry].length == 1
    ensures Pass(s, c, NoMemory(), now).cursor ==
            Cursor(s.entry[c.currentEntry].delay, c.currentEntry + 1, c.pktOffset + 1, c.data)
  {
  }

  // ----- a null Jam behind which the countdown wraps

  const WRAP_ENTRY: seq<ControlEntry> := [Entry(1, 1, 0), Entry(1, 0, 0), Entry(1, 1, 0), Entry(1, 1, 0)]
  const WRAP_LOAD: seq<LoadEntry> :=
    [Entry(1, 1, ABSOLUTE), Entry(1, 0, ABSOLUTE), Entry(1, 1, ABSOLUTE), Entry(1, 1, ABSOLUTE)]
  const WRAP_ACTIONS := [Wake, Wake, Jam(3, 0, 0, ABSOLUTE, true), Wake]

  lemma WrapStart() returns (s: Stream)
    ensures s == StartedTable(WRAP_ENTRY, WRAP_LOAD, 3)
    ensures StreamOk(s) && Coherent(s.local.setup) && !s.hung
    ensures ActionsOk(AnyAddress(), Size(s), SignatureLength(s), WRAP_ACTIONS)
  {
    s := StartedTable(WRAP_ENTRY, WRAP_LOAD, 3);
    ActiveCountIs(WRAP_ENTRY, 4);
    assert DelaySum(WRAP_ENTRY, 1) == 1 && LengthSum(WRAP_ENTRY, 1) == 1;
    assert DelaySum(WRAP_ENTRY, 2) == 1 && LengthSum(WRAP_ENTRY, 2) == 2;
    assert DelaySum(WRAP_ENTRY, 3) == 2 && LengthSum(WRAP_ENTRY, 3) == 3;
  }

  /** The table after its first two wakeups: the first entry is sampled on one, the second and
      third on the other, and the fourth is next. */
  lemma WrapWakeups(s: Stream, c: Cursor, data: seq<u8>)
    requires s == StartedTable(WRAP_ENTRY, WRAP_LOAD, 3)
    requires StreamOk(s)
    requires data == s.local.cursor.data
    ensures c == Cursor(1, 0, 0, data) && !Hangs(Table(s.local.setup, c)) ==>
              Wakeup(Table(s.local.setup, c), NoMemory(), 1).cursor == Cursor(1, 1, 1, data)
    ensures c == Cursor(1, 1, 1, data) && !Hangs(Table(s.local.setup, c)) ==>
              Wakeup(Table(s.local.setup, c), NoMemory(), 2).cursor == Cursor(1, 3, 3, data)
  {
    var setup := s.local.setup;
    if c == Cursor(1, 0, 0, data) && !Hangs(Table(setup, c)) {
      var p := Pass(setup, Cursor(0, 0, 0, data), NoMemory(), 1);
      FailedPass(setup, Cursor(0, 0, 0, data), 1);
      DrainFromFront(setup, Cursor(0, 0, 0, data), NoMemory(), 1, p);
    }
    if c == Cursor(1, 1, 1, data) && !Hangs(Table(setup, c)) {
      var p := Pass(setup, Cursor(0, 1, 1, data), NoMemory(), 2);
      FailedPass(setup, Cursor(0, 1, 1, data), 2);
      DrainFromFront(setup, Cursor(0, 1, 1, data), NoMemory(), 2, p);
      assert p.cursor == Cursor(0, 2, 2, data);
      var q := Pass(setup, p.cursor, NoMemory(), 2);
      FailedPass(setup, p.cursor, 2);
      DrainFromFront(setup, p.cursor, NoMemory(), 2, q);
    }
  }

  lemma WrapJam(setup: Setup, buffer: LoadTable, p: Stream, r: Stream)
    requires setup == StartedTable(WRAP_ENTRY, WRAP_LOAD, 3).local.setup
    requires buffer == StartedTable(WRAP_ENTRY, WRAP_LOAD, 3).buffer
    requires p.local.setup == setup && p.buffer == buffer
    requires r == JamDwell(AnyAddress(), p, 3, 0, 0, ABSOLUTE, true)
    ensures r.local.cursor == p.local.cursor && r.trace == p.trace && r.hung == p.hung
    ensures r.local.setup.enabled == ENABLED && r.local.setup.addrCount == 2 && r.local.setup.rate == 1
    ensures |r.local.setup.entry| == 4 && r.local.setup.entry[1].delay == 0
  {
    var entry := WRAP_ENTRY[2 := Entry(0, 0, 0)];
    ActiveCountIs(entry, 2);
    assert DelaySum(entry, 1) == 1;
  }

  lemma OverrunStoresDelay(t: Table, mem: Memory, now: nat)
    requires WellFormed(t) && Overrun(t)
    ensures !Hangs(t)
    ensures Wakeup(t, mem, now).cursor.countdown == t.setup.entry[t.setup.addrCount - 1].delay
  {
  }

  /** One wakeup of a run, when the buffer plays no part. */
  lemma WakeStep(s: Stream, acts: seq<Action>, k: nat, p: Stream, now: nat)
    requires StreamOk(s) && ActionsOk(AnyAddress(), Size(s), SignatureLength(s), acts)
    requires k < |acts| && acts[k] == Wake
    requires p == Before(AnyAddress(), NoMemory(), 0, s, acts, k) && !p.hung && !Hangs(p.local)
    requires now == Wakes(acts[..k + 1])
    ensures
      var r := Before(AnyAddress(), NoMemory(), 0, s, acts, k + 1);
      && r.local == Table(p.local.setup, Wakeup(p.local, NoMemory(), now).cursor)
      && r.buffer == p.buffer && !r.hung
  {
    hide Wakeup, Exec;
    BeforeNext(AnyAddress(), NoMemory(), 0, s, acts, k, p);
  }

  /** The first two wakeups. */
  lemma WrapTwoWakeups(s: Stream) returns (p: Stream)
    requires s == StartedTable(WRAP_ENTRY, WRAP_LOAD, 3)
    requires StreamOk(s) && Coherent(s.local.setup)
    requires ActionsOk(AnyAddress(), Size(s), SignatureLength(s), WRAP_ACTIONS)
    ensures p == Before(AnyAddress(), NoMemory(), 0, s, WRAP_ACTIONS, 2)
    ensures p.local == Table(s.local.setup, Cursor(1, 3, 3, s.local.cursor.data))
    ensures p.buffer == s.buffer && !p.hung
  {
    var acts := WRAP_ACTIONS;
    var data := s.local.cursor.data;
    var p0 := Before(AnyAddress(), NoMemory(), 0, s, acts, 0);
    assert acts[..0] == [];
    assert p0 == s;
    assert s.local.cursor == Cursor(1, 0, 0, data) && !s.hung;
    assert s.local.setup.rate == 3;
    hide Wakeup, StartedTable, Exec;
    CoherentHasDelay(s.local.setup);
    assert acts[..1] == [Wake] && acts[..1][..0] == [];
    assert Wakes(acts[..1]) == 1;
    WakeStep(s, acts, 0, p0, 1);
    WrapWakeups(s, p0.local.cursor, data);
    var p1 := Before(AnyAddress(), NoMemory(), 0, s, acts, 1);
    assert p1.local == Table(s.local.setup, Cursor(1, 1, 1, data));
    assert acts[..2] == [Wake, Wake] && acts[..2][..1] == [Wake];
    assert Wakes([Wake]) == 1;
    assert Wakes(acts[..2]) == 2;
    WakeStep(s, acts, 1, p1, 2);
    WrapWakeups(s, p1.local.cursor, data);
    p := Before(AnyAddress(), NoMemory(), 0, s, acts, 2);
  }

  /** The Jam that leaves two active entries, the second without a delay, under a table at its fourth. */
  lemma WrapShortened(s: Stream) returns (p: Stream)
    requires s == StartedTable(WRAP_ENTRY, WRAP_LOAD, 3)
    requires StreamOk(s) && Coherent(s.local.setup)
    requires ActionsOk(AnyAddress(), Size(s), SignatureLength(s), WRAP_ACTIONS)
    ensures p == Before(AnyAddress(), NoMemory(), 0, s, WRAP_ACTIONS, 3)
    ensures ZeroDelayOverrun(p.local) && !p.hung
  {
    hide Wakeup, StartedTable, Exec, JamDwell, Before;
    var p2 := WrapTwoWakeups(s);
    p := Before(AnyAddress(), NoMemory(), 0, s, WRAP_ACTIONS, 3);
    WrapJammed(s, p2, p);
    WrapJam(s.local.setup, s.buffer, p2, p);
  }

  lemma WrapJammed(s: Stream, p: Stream, r: Stream)
    requires StreamOk(s) && StreamSized(p) && !p.hung
    requires ActionsOk(AnyAddress(), Size(s), SignatureLength(s), WRAP_ACTIONS)
    requires p == Before(AnyAddress(), NoMemory(), 0, s, WRAP_ACTIONS, 2)
    requires r == Before(AnyAddress(), NoMemory(), 0, s, WRAP_ACTIONS, 3)
    ensures r == JamDwell(AnyAddress(), p, 3, 0, 0, ABSOLUTE, true)
  {
    hide Exec, JamDwell;
    BeforeNext(AnyAddress(), NoMemory(), 0, s, WRAP_ACTIONS, 2, p);
  }

  /** A Jam that succeeds, shortening a running table to an active part that ends in a zero delay,
      makes the next wakeup store a countdown of zero. */
  lemma CountdownWraps() returns (s: Stream)
    ensures StreamOk(s) && Coherent(s.local.setup) && CountdownSafe(s.local) && !s.hung
    ensures ActionsOk(AnyAddress(), Size(s), SignatureLength(s), WRAP_ACTIONS) && AllAccessOk(WRAP_ACTIONS)
    ensures
      var r := Exec(AnyAddress(), NoMemory(), 0, s, WRAP_ACTIONS).local;
      r.setup.enabled == ENABLED && r.cursor.countdown == 0 && !CountdownSafe(r)
  {
    s := WrapStart();
    var acts := WRAP_ACTIONS;
    assert CountdownSafe(s.local);
    hide Wakeup, StartedTable, Exec, JamDwell;
    var p := WrapShortened(s);
    assert acts[..4] == acts;
    OverrunStoresDelay(p.local, NoMemory(), Wakes(acts));
    WakeStep(s, acts, 3, p, Wakes(acts));
  }

  // ----- a failed Jam behind which a wakeup never ends

  const HANG_ACTIONS := [Jam(1, 1, 0, ABSOLUTE, false), Wake]

  /** One entry, rate 1. A Jam takes its delay away and loses the buffer access: the summary is
      stale, and the next wakeup samples that entry for ever. */
  lemma WakeupHangs() returns (s: Stream)
    ensures StreamOk(s) && Coherent(s.local.setup) && !s.hung
    ensures ActionsOk(AnyAddress(), Size(s), SignatureLength(s), HANG_ACTIONS)
    ensures !Coherent(Before(AnyAddress(), NoMemory(), 0, s, HANG_ACTIONS, 1).local.setup)
    ensures Exec(AnyAddress(), NoMemory(), 0, s, HANG_ACTIONS).hung
  {
    var entry: seq<ControlEntry>, load: seq<LoadEntry> := [Entry(1, 1, 0)], [Entry(1, 1, ABSOLUTE)];
    var acts := HANG_ACTIONS;
    s := StartedTable(entry, load, 1);
    ActiveCountIs(entry, 1);
    assert DelaySum(entry, 1) == 1 && LengthSum(entry, 1) == 1;
    assert acts[..0] == [];
    BeforeNext(AnyAddress(), NoMemory(), 0, s, acts, 0, s);
    var p := Before(AnyAddress(), NoMemory(), 0, s, acts, 1);
    FailedJamHangs(s, 0, Entry(1, 0, 0), Entry(1, 0, ABSOLUTE));
    FailedJamCoherence(s, 0, Entry(1, 0, 0), Entry(1, 0, ABSOLUTE));
    assert p == Jammed(s, 0, Entry(1, 0, 0), Entry(1, 0, ABSOLUTE), false);
    BeforeNext(AnyAddress(), NoMemory(), 0, s, acts, 1, p);
    assert acts[..2] == acts;
  }

  // ----- a null entry whose address recovery does not restore

  const NULL_LOAD := LoadTable(DISABLED, NO_TEXT, [Entry(1, 1, SymAddr(8, "")), Entry(0, 0, SymAddr(0, "X"))])

  /** A null entry with an unknown symbol keeps the address resolved before it. After a Jam of that
      other entry, a copy of the buffer would give it the new one. Nothing reads the address. */
  lemma NullAddressNotRestored() returns (s: Stream)
    ensures GoodLoad(AnyAddress(), NULL_LOAD)
    ensures s == Stream(Loaded(AnyAddress(), Cleared(2, 4), NULL_LOAD), NULL_LOAD, [], false)
    ensures StreamOk(s) && ExactCopy(AnyAddress(), s) && Backed(AnyAddress(), s)
    ensures
      var r := JamDwell(AnyAddress(), s, 1, 1, 1, SymAddr(16, ""), true);
      !ExactCopy(AnyAddress(), r) && Backed(AnyAddress(), r)
  {
    var env := AnyAddress();
    s := Stream(Loaded(env, Cleared(2, 4), NULL_LOAD), NULL_LOAD, [], false);
    assert NULL_LOAD.signature[0] == '\0';
    assert s.local.setup.entry == CopyEntries(env, NULL_LOAD.entry);
    assert s.local.setup.entry[0] == CopyEntry(env, NULL_LOAD.entry, 0);
    assert s.local.setup.entry[1] == CopyEntry(env, NULL_LOAD.entry, 1);
    JamExactIff(env, s, 0, Entry(1, 1, 16), Entry(1, 1, SymAddr(16, "")));
    JammedBacked(env, s, 0, Entry(1, 1, 16), Entry(1, 1, SymAddr(16, "")));
  }
}
