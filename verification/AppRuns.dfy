/** Runs of the whole application, and why each table can be understood alone. */
module AppRuns {
  import opened Types
  import opened Engine
  import opened Commands
  import opened AnyTable
  import opened Runs
  import opened Coherence
  import opened TailLengths
  import opened Telemetry

  /** A message to the application. okFor(i) says whether table i's buffer can be accessed. */
  datatype AppAction =
    | WakeAll
    | StartTables(mask: Word16, okFor: nat -> bool)
    | StopTables(mask: Word16, okFor: nat -> bool)
    | JamTable(tableId: u16, entryId: u16, length: u16, delay: u16, address: SymAddr, ok: bool)
    | SignTable(tableId: u16, signature: string, ok: bool)
    | UpdateTable(index: nat, tbl: LoadTable, ok: bool)

  /** The part of a message that is addressed to table i. */
  function ActionFor(a: AppAction, i: nat): Option<Action> {
    match a
    case WakeAll => Some(Wake)
    case StartTables(mask, okFor) => if Addressed(i, mask) then Some(Start(okFor(i))) else None
    case StopTables(mask, okFor) => if Addressed(i, mask) then Some(Stop(okFor(i))) else None
    case JamTable(tableId, entryId, length, delay, address, ok) =>
      if tableId == i + 1 then Some(Jam(entryId, length, delay, address, ok)) else None
    case SignTable(tableId, signature, ok) =>
      if tableId == i + 1 then Some(SetSignature(signature, ok)) else None
    case UpdateTable(index, tbl, ok) =>
      if index == i then Some(Load(tbl, ok)) else None
  }

  /** The actions that reach table i, in order. */
  function Project(acts: seq<AppAction>, i: nat): seq<Action> {
    if acts == [] then []
    else
      var front := Project(acts[..|acts| - 1], i);
      match ActionFor(acts[|acts| - 1], i)
      case None => front
      case Some(a) => front + [a]
  }

  function WakeCount(acts: seq<AppAction>): nat {
    if acts == [] then 0 else WakeCount(acts[..|acts| - 1]) + if acts[|acts| - 1].WakeAll? then 1 else 0
  }

  lemma {:induction false} ProjectedWakes(acts: seq<AppAction>, i: nat)
    ensures Wakes(Project(acts, i)) == WakeCount(acts)
  {
    if acts != [] {
      var front := acts[..|acts| - 1];
      ProjectedWakes(front, i);
      var a := ActionFor(acts[|acts| - 1], i);
      if a.Some? {
        assert (Project(front, i) + [a.value])[..|Project(front, i)|] == Project(front, i);
      }
    }
  }

  ghost predicate StreamsSized(streams: seq<Stream>) {
    forall i :: 0 <= i < |streams| ==> StreamSized(streams[i])
  }

  ghost predicate AppActionSized(streams: seq<Stream>, a: AppAction) {
    forall i :: 0 <= i < |streams| && ActionFor(a, i).Some? ==>
      ActionSized(Size(streams[i]), SignatureLength(streams[i]), ActionFor(a, i).value)
  }

  ghost predicate SameSizes(a: seq<Stream>, b: seq<Stream>) {
    && |a| == |b|
    && forall i :: 0 <= i < |a| ==> Size(a[i]) == Size(b[i]) && SignatureLength(a[i]) == SignatureLength(b[i])
  }

  predicate AnyHung(streams: seq<Stream>) {
    exists i :: 0 <= i < |streams| && streams[i].hung
  }

  /** The loop of one wakeup over the first k tables, in turn. A table whose inner loop does not
      end keeps the later ones waiting for good. */
  ghost function WakeInTurn(env: Env, mems: nat -> Memory, now: nat, streams: seq<Stream>, k: nat): (r: seq<Stream>)
    requires StreamsSized(streams) && k <= |streams|
    ensures StreamsSized(r) && SameSizes(r, streams)
    ensures forall i :: k <= i < |streams| ==> r[i] == streams[i]
  {
    if k == 0 then streams
    else
      var r := WakeInTurn(env, mems, now, streams, k - 1);
      if AnyHung(r) then r else r[k - 1 := Perform(env, mems(k - 1), now, r[k - 1], Wake)]
  }

  /** One message. Once a table hangs, the application handles no message any more. */
  ghost function AppPerform(env: Env, mems: nat -> Memory, now: nat, streams: seq<Stream>, a: AppAction)
    : (r: seq<Stream>)
    requires StreamsSized(streams) && AppActionSized(streams, a)
    ensures StreamsSized(r) && SameSizes(r, streams)
  {
    if AnyHung(streams) then streams
    else if a.WakeAll? then WakeInTurn(env, mems, now, streams, |streams|)
    else
      var r := EachTable(env, mems, now, streams, a);
      assert forall i :: 0 <= i < |r| ==> r[i] == TableStep(env, mems(i), now, streams[i], ActionFor(a, i));
      r
  }

  ghost function EachTable(env: Env, mems: nat -> Memory, now: nat, streams: seq<Stream>, a: AppAction)
    : (r: seq<Stream>)
    requires StreamsSized(streams) && AppActionSized(streams, a)
    ensures |r| == |streams|
    ensures forall i :: 0 <= i < |r| ==> r[i] == TableStep(env, mems(i), now, streams[i], ActionFor(a, i))
  {
    seq(|streams|, i requires 0 <= i < |streams| => TableStep(env, mems(i), now, streams[i], ActionFor(a, i)))
  }

  /** What one table does with its part of a message. */
  ghost function TableStep(env: Env, mem: Memory, now: nat, s: Stream, a: Option<Action>): (r: Stream)
    requires StreamSized(s)
    requires a.Some? ==> ActionSized(Size(s), SignatureLength(s), a.value)
    ensures StreamSized(r) && Size(r) == Size(s) && SignatureLength(r) == SignatureLength(s)
  {
    match a
    case None => s
    case Some(x) => Perform(env, mem, now, s, x)
  }

  ghost predicate AppActionsSized(streams: seq<Stream>, acts: seq<AppAction>) {
    forall k :: 0 <= k < |acts| ==> AppActionSized(streams, acts[k])
  }

  ghost function AppExec(env: Env, mems: nat -> Memory, from: nat, streams: seq<Stream>, acts: seq<AppAction>)
    : (r: seq<Stream>)
    requires StreamsSized(streams) && AppActionsSized(streams, acts)
    ensures StreamsSized(r) && SameSizes(r, streams)
  {
    if acts == [] then streams
    else
      var p := AppExec(env, mems, from, streams, acts[..|acts| - 1]);
      assert AppActionSized(streams, acts[|acts| - 1]);
      AppPerform(env, mems, from + WakeCount(acts), p, acts[|acts| - 1])
  }

  /** Conversely: if no table hangs, a state reached table by table is the one reached by the message. */
  lemma {:induction false} PointwiseWake(env: Env, mems: nat -> Memory, now: nat, streams: seq<Stream>, r: seq<Stream>,
                                         k: nat, part: seq<Stream>)
    requires StreamsSized(streams) && k <= |streams| == |r|
    requires !AnyHung(streams) && !AnyHung(r)
    requires forall i :: 0 <= i < |r| ==> r[i] == Perform(env, mems(i), now, streams[i], Wake)
    requires part == WakeInTurn(env, mems, now, streams, k)
    ensures part == r[..k] + streams[k..] && !AnyHung(part)
    decreases k
  {
    hide Perform, StreamSized, SameSizes;
    if k > 0 {
      var before := WakeInTurn(env, mems, now, streams, k - 1);
      PointwiseWake(env, mems, now, streams, r, k - 1, before);
      assert before[k - 1] == streams[k - 1];
      assert part == before[k - 1 := r[k - 1]];
    }
  }

  lemma PointwiseIsStep(env: Env, mems: nat -> Memory, now: nat, streams: seq<Stream>, a: AppAction, r: seq<Stream>)
    requires StreamsSized(streams) && AppActionSized(streams, a) && |r| == |streams|
    requires !AnyHung(streams) && !AnyHung(r)
    requires forall i :: 0 <= i < |r| ==> r[i] == TableStep(env, mems(i), now, streams[i], ActionFor(a, i))
    ensures r == AppPerform(env, mems, now, streams, a)
  {
    hide Perform, StreamSized;
    if a.WakeAll? {
      PointwiseWake(env, mems, now, streams, r, |streams|, WakeInTurn(env, mems, now, streams, |streams|));
    }
  }

  lemma {:induction false} WakeIsPointwise(env: Env, mems: nat -> Memory, now: nat, streams: seq<Stream>, k: nat,
                                           r: seq<Stream>, i: nat)
    requires StreamsSized(streams) && k <= |streams| && i < |streams|
    requires r == WakeInTurn(env, mems, now, streams, k) && !AnyHung(r)
    ensures r[i] == if i < k then Perform(env, mems(i), now, streams[i], Wake) else streams[i]
    decreases k
  {
    hide Perform, StreamSized;
    if k > 0 {
      var r0 := WakeInTurn(env, mems, now, streams, k - 1);
      if !AnyHung(r0) {
        WakeIsPointwise(env, mems, now, streams, k - 1, r0, i);
        WakeIsPointwise(env, mems, now, streams, k - 1, r0, k - 1);
      }
    }
  }

  lemma StepIsPointwise(env: Env, mems: nat -> Memory, now: nat, streams: seq<Stream>, a: AppAction,
                        r: seq<Stream>, i: nat)
    requires StreamsSized(streams) && AppActionSized(streams, a) && i < |streams|
    requires r == AppPerform(env, mems, now, streams, a) && !AnyHung(r)
    ensures !AnyHung(streams)
    ensures r[i] == if ActionFor(a, i).Some? then Perform(env, mems(i), now, streams[i], ActionFor(a, i).value)
                    else streams[i]
  {
    hide Perform;
    assert !AnyHung(streams);
    if a.WakeAll? {
      WakeIsPointwise(env, mems, now, streams, |streams|, r, i);
    }
  }

  lemma ProjectedSized(streams: seq<Stream>, acts: seq<AppAction>, i: nat)
    requires AppActionsSized(streams, acts) && i < |streams|
    ensures ActionsSized(Size(streams[i]), SignatureLength(streams[i]), Project(acts, i))
    decreases |acts|
  {
    if acts != [] {
      ProjectedSized(streams, acts[..|acts| - 1], i);
      assert AppActionSized(streams, acts[|acts| - 1]);
    }
  }

  /** Table independence: in any run of the application in which no inner loop hangs, table i is
      exactly where a single-table machine would be that saw all the wakeups and, of the other
      messages, only those addressed to i. */
  lemma {:induction false} TableIndependence(env: Env, mems: nat -> Memory, from: nat, streams: seq<Stream>,
                                             acts: seq<AppAction>, r: seq<Stream>, i: nat)
    requires StreamsSized(streams) && AppActionsSized(streams, acts) && i < |streams|
    requires r == AppExec(env, mems, from, streams, acts) && !AnyHung(r)
    ensures ActionsSized(Size(streams[i]), SignatureLength(streams[i]), Project(acts, i))
    ensures r[i] == Exec(env, mems(i), from, streams[i], Project(acts, i))
    decreases |acts|
  {
    hide Perform, AppPerform;
    ProjectedSized(streams, acts, i);
    if acts != [] {
      var front, last := acts[..|acts| - 1], acts[|acts| - 1];
      var p := AppExec(env, mems, from, streams, front);
      assert AppActionSized(streams, last);
      StepIsPointwise(env, mems, from + WakeCount(acts), p, last, r, i);
      TableIndependence(env, mems, from, streams, front, p, i);
      var a := ActionFor(last, i);
      if a.Some? {
        ProjectedWakes(acts, i);
        assert Project(acts, i)[..|Project(acts, i)| - 1] == Project(front, i);
      }
    }
  }

  /** A run that is not hung at its end was never hung. */
  lemma {:induction false} NeverHung(env: Env, mems: nat -> Memory, from: nat, streams: seq<Stream>,
                                     acts: seq<AppAction>, k: nat)
    requires StreamsSized(streams) && AppActionsSized(streams, acts) && k <= |acts|
    requires !AnyHung(AppExec(env, mems, from, streams, acts))
    ensures AppActionsSized(streams, acts[..k])
    ensures !AnyHung(AppExec(env, mems, from, streams, acts[..k]))
    decreases |acts| - k
  {
    hide AppPerform, AnyHung;
    if k == |acts| {
      assert acts[..k] == acts;
    } else {
      NeverHung(env, mems, from, streams, acts, k + 1);
      var p := AppExec(env, mems, from, streams, acts[..k]);
      AppNext(env, mems, from, streams, acts, k, p);
      StepNotHung(env, mems, from + WakeCount(acts[..k + 1]), p, acts[k]);
    }
  }

  lemma StepNotHung(env: Env, mems: nat -> Memory, now: nat, streams: seq<Stream>, a: AppAction)
    requires StreamsSized(streams) && AppActionSized(streams, a)
    requires !AnyHung(AppPerform(env, mems, now, streams, a))
    ensures !AnyHung(streams)
  {
    hide AnyHung, WakeInTurn, EachTable;
  }

  lemma AppNext(env: Env, mems: nat -> Memory, from: nat, streams: seq<Stream>, acts: seq<AppAction>, k: nat,
                p: seq<Stream>)
    requires StreamsSized(streams) && AppActionsSized(streams, acts) && k < |acts|
    requires AppActionsSized(streams, acts[..k]) && p == AppExec(env, mems, from, streams, acts[..k])
    ensures AppActionsSized(streams, acts[..k + 1]) && StreamsSized(p) && AppActionSized(p, acts[k])
    ensures AppExec(env, mems, from, streams, acts[..k + 1]) ==
            AppPerform(env, mems, from + WakeCount(acts[..k + 1]), p, acts[k])
  {
    hide AppPerform;
    assert acts[..k + 1][..k] == acts[..k];
    assert AppActionSized(streams, acts[k]);
  }

  // ----- without lost Jams nothing hangs

  /** Loads have lengths that fit, and Jams keep their buffer access. */
  ghost predicate CalmAction(a: AppAction) {
    && (a.UpdateTable? ==> LengthsFit(a.tbl.entry) && FlagOk(a.tbl))
    && (a.JamTable? ==> a.ok)
  }

  /** The summary is right, no length moves the offset too far, and the table runs. */
  ghost predicate CalmStream(s: Stream) {
    && StreamSized(s) && !s.hung
    && Summarises(s.local.setup) && LengthsFit(s.local.setup.entry) && Settled(s.local)
  }

  ghost predicate AllCalm(streams: seq<Stream>) {
    forall i :: 0 <= i < |streams| ==> CalmStream(streams[i])
  }

  lemma CalmStep(env: Env, mem: Memory, now: nat, s: Stream, a: Action)
    requires CalmStream(s) && ActionSized(Size(s), SignatureLength(s), a)
    requires a.Load? ==> LengthsFit(a.tbl.entry) && FlagOk(a.tbl)
    requires a.Jam? ==> a.ok
    ensures CalmStream(Perform(env, mem, now, s, a))
  {
    hide Perform, Summarises, LengthsFit, Settled, Overwrites;
    PerformSummarisesIff(env, mem, now, s, a);
    PerformKeepsFit(env, mem, now, s, a);
    HangsByWriting(env, mem, now, s, a);
    WakeKeepsFit(s, mem, now);
  }

  lemma {:induction false} WakeKeepsCalm(env: Env, mems: nat -> Memory, now: nat, streams: seq<Stream>, k: nat)
    requires StreamsSized(streams) && AllCalm(streams) && k <= |streams|
    ensures AllCalm(WakeInTurn(env, mems, now, streams, k))
  {
    hide Perform, CalmStream, StreamSized, StreamsSized, AllCalm, SameSizes, AnyHung;
    if k > 0 {
      WakeKeepsCalm(env, mems, now, streams, k - 1);
      NextWakeCalm(env, mems, now, streams, k, WakeInTurn(env, mems, now, streams, k - 1));
    }
  }

  lemma NextWakeCalm(env: Env, mems: nat -> Memory, now: nat, streams: seq<Stream>, k: nat, before: seq<Stream>)
    requires StreamsSized(streams) && 0 < k <= |streams|
    requires before == WakeInTurn(env, mems, now, streams, k - 1) && AllCalm(before)
    ensures AllCalm(WakeInTurn(env, mems, now, streams, k))
  {
    hide Perform, CalmStream, StreamSized, AllCalm;
    UpdateCalm(env, mems, now, before, k - 1);
  }

  lemma UpdateCalm(env: Env, mems: nat -> Memory, now: nat, r: seq<Stream>, k: nat)
    requires StreamsSized(r) && AllCalm(r) && k < |r|
    ensures AllCalm(r[k := Perform(env, mems(k), now, r[k], Wake)])
  {
    hide Perform, CalmStream, StreamSized;
    CalmStep(env, mems(k), now, r[k], Wake);
  }

  lemma StepKeepsCalm(env: Env, mems: nat -> Memory, now: nat, streams: seq<Stream>, a: AppAction, r: seq<Stream>)
    requires AllCalm(streams) && CalmAction(a)
    requires StreamsSized(streams) && AppActionSized(streams, a)
    requires r == AppPerform(env, mems, now, streams, a)
    ensures AllCalm(r)
  {
    hide Perform, CalmStream, StreamSized;
    if a.WakeAll? {
      WakeKeepsCalm(env, mems, now, streams, |streams|);
    } else {
      forall i | 0 <= i < |streams| ensures CalmStream(r[i]) {
        if ActionFor(a, i).Some? {
          CalmStep(env, mems(i), now, streams[i], ActionFor(a, i).value);
        }
      }
    }
  }

  lemma CalmNotHung(streams: seq<Stream>)
    requires AllCalm(streams)
    ensures !AnyHung(streams)
  {
  }

  /** While no Jam loses its buffer access and the lengths in loads fit, be they legal or not, the
      application never hangs, so every table is independent of the others. */
  lemma {:induction false} NothingHangs(env: Env, mems: nat -> Memory, from: nat, streams: seq<Stream>,
                                        acts: seq<AppAction>, r: seq<Stream>)
    requires AllCalm(streams) && forall k :: 0 <= k < |acts| ==> CalmAction(acts[k])
    requires StreamsSized(streams) && AppActionsSized(streams, acts)
    requires r == AppExec(env, mems, from, streams, acts)
    ensures AllCalm(r) && !AnyHung(r)
    decreases |acts|
  {
    hide AppPerform, CalmStream, CalmAction, AnyHung;
    CalmNotHung(streams);
    if acts != [] {
      var front, last := acts[..|acts| - 1], acts[|acts| - 1];
      var p := AppExec(env, mems, from, streams, front);
      NothingHangs(env, mems, from, streams, front, p);
      assert AppActionSized(streams, last);
      StepKeepsCalm(env, mems, from + WakeCount(acts), p, last, r);
      CalmNotHung(r);
    }
  }
}
