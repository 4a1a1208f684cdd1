/** Ground commands and table loads, as functions on one dwell stream: its local control
    structure, the copy of its table that Table Services keeps, and what it did so far. */
module Commands {
  import opened Types
  import opened Summary
  import opened Engine
  import opened AnyTable
  import opened Signatures
  import opened Validation

  // ----- the copy of a load

  /** ResolvedAddr after k entries of a load: a symbol that does not resolve leaves it as it was. */
  function Carry(env: Env, entry: seq<LoadEntry>, k: nat): nat
    requires k <= |entry|
  {
    if k == 0 then 0
    else
      match ResolveSymAddr(env, entry[k - 1].address)
      case Some(address) => address
      case None => Carry(env, entry, k - 1)
  }

  function CopyEntry(env: Env, entry: seq<LoadEntry>, i: nat): ControlEntry
    requires i < |entry|
  {
    Entry(entry[i].length, entry[i].delay, Carry(env, entry, i + 1))
  }

  function CopyEntries(env: Env, entry: seq<LoadEntry>): (r: seq<ControlEntry>)
    ensures |r| == |entry|
    ensures forall i :: 0 <= i < |r| ==> r[i] == CopyEntry(env, entry, i)
  {
    seq(|entry|, i requires 0 <= i < |entry| => CopyEntry(env, entry, i))
  }

  /** The control structure's setup made from a load. */
  function CopyOf(env: Env, tbl: LoadTable): (r: Setup)
    requires |tbl.entry| <= MAX_TABLE_SIZE
  {
    Summarised(Setup(tbl.enabled % U16_SPAN, 0, 0, 0, CopyEntries(env, tbl.entry), CopySignature(tbl.signature)))
  }

  /** Local structure after a load has been copied in, and started if the load is enabled. */
  function Loaded(env: Env, t: Table, tbl: LoadTable): Table
    requires |tbl.entry| <= MAX_TABLE_SIZE
  {
    Table(CopyOf(env, tbl), if tbl.enabled == ENABLED then Restarted(t.cursor, 1) else t.cursor)
  }

  /** The control structure as initialisation clears it. */
  function Cleared(size: nat, signatureLength: nat): (t: Table)
    ensures 1 <= size <= MAX_TABLE_SIZE ==> WellFormed(t) && Coherent(t.setup)
  {
    var entry := seq(size, _ => Entry(0, 0, 0));
    Table(Setup(DISABLED, 0, 0, 0, entry, seq(signatureLength, _ => '\0')),
          Cursor(1, 0, 0, seq(4 * size, _ => 0)))
  }

  // ----- one stream

  datatype Stream = Stream(local: Table, buffer: LoadTable, trace: seq<Event>, hung: bool)

  /** Every access to the Table Services buffer can fail; `ok` says that this one succeeded. */
  datatype Action =
    | Wake
    | Start(ok: bool)
    | Stop(ok: bool)
    | Jam(entryId: u16, length: u16, delay: u16, address: SymAddr, ok: bool)
    | SetSignature(signature: string, ok: bool)
    | Load(tbl: LoadTable, ok: bool)

  function Size(s: Stream): nat {
    |s.local.setup.entry|
  }

  function SignatureLength(s: Stream): nat {
    |s.local.setup.signature|
  }

  /** What holds whatever is loaded: the arrays have their sizes and indices stay in them. */
  ghost predicate StreamSized(s: Stream) {
    && Sized(s.local)
    && |s.buffer.entry| == Size(s)
    && |s.buffer.signature| == |s.local.setup.signature| > 0
  }

  /** What holds as long as every length in a load is legal. */
  ghost predicate StreamOk(s: Stream) {
    && WellFormed(s.local)
    && |s.buffer.entry| == Size(s)
    && |s.buffer.signature| == |s.local.setup.signature| > 0
  }

  lemma OkIsSized(s: Stream)
    requires StreamOk(s)
    ensures StreamSized(s)
  {
  }

  /** The documented contract of a load: validated, and every entry valid - those behind the
      first null entry too, which validation does not look at. */
  ghost predicate GoodLoad(env: Env, tbl: LoadTable) {
    Acceptable(env, tbl) && PrefixGood(env, tbl.entry, |tbl.entry|)
  }

  /** Arguments have the sizes that message formats and Table Services give them. */
  ghost predicate ActionSized(size: nat, signatureLength: nat, a: Action) {
    && (a.SetSignature? ==> |a.signature| == signatureLength)
    && (a.Load? ==> |a.tbl.entry| == size && |a.tbl.signature| == signatureLength)
  }

  /** Moreover every length in a load is legal, behind the first null entry too. */
  ghost predicate ActionLegal(size: nat, signatureLength: nat, a: Action) {
    && ActionSized(size, signatureLength, a)
    && (a.Load? ==> FieldLengths(a.tbl.entry))
  }

  /** Moreover loads meet their whole contract. */
  ghost predicate ActionOk(env: Env, size: nat, signatureLength: nat, a: Action) {
    && ActionLegal(size, signatureLength, a)
    && (a.Load? ==> GoodLoad(env, a.tbl))
  }

  function Started(t: Table): Table {
    Table(t.setup.(enabled := ENABLED), Restarted(t.cursor, 1))
  }

  function Stopped(t: Table): Table {
    Table(t.setup.(enabled := DISABLED), Restarted(t.cursor, 0))
  }

  /** A Jam that passed its checks. Without access to the buffer the local entry is changed
      all the same, and the summary is not. */
  function Jammed(s: Stream, slot: nat, e: ControlEntry, le: LoadEntry, ok: bool): Stream
    requires slot < |s.local.setup.entry| == |s.buffer.entry| <= MAX_TABLE_SIZE
  {
    var setup := s.local.setup.(entry := s.local.setup.entry[slot := e]);
    if ok then
      s.(local := s.local.(setup := Summarised(setup)), buffer := s.buffer.(entry := s.buffer.entry[slot := le]))
    else
      s.(local := s.local.(setup := setup))
  }

  lemma ClearedOk(size: nat, signatureLength: nat, buffer: LoadTable)
    requires 1 <= size <= MAX_TABLE_SIZE && 0 < signatureLength
    requires |buffer.entry| == size && |buffer.signature| == signatureLength
    ensures StreamOk(Stream(Cleared(size, signatureLength), buffer, [], false))
  {
  }

  lemma SwitchOk(s: Stream, ok: bool)
    ensures StreamSized(s) ==> StreamSized(StartStream(s, ok)) && StreamSized(StopStream(s, ok))
    ensures StreamOk(s) ==> StreamOk(StartStream(s, ok)) && StreamOk(StopStream(s, ok))
  {
  }

  lemma SignOk(s: Stream, signature: string, ok: bool)
    requires |signature| == SignatureLength(s)
    ensures StreamSized(s) ==> StreamSized(SignStream(s, signature, ok))
    ensures StreamOk(s) ==> StreamOk(SignStream(s, signature, ok))
  {
  }

  /** Of a load that is copied in only the lengths matter for well-formedness. */
  lemma LoadOk(env: Env, s: Stream, tbl: LoadTable, ok: bool)
    requires StreamSized(s)
    requires |tbl.entry| == Size(s) && |tbl.signature| == SignatureLength(s)
    ensures StreamSized(LoadStream(env, s, tbl, ok))
    ensures StreamOk(s) && (ok ==> FieldLengths(tbl.entry)) ==> StreamOk(LoadStream(env, s, tbl, ok))
  {
  }

  lemma JammedOk(s: Stream, slot: nat, e: ControlEntry, le: LoadEntry, ok: bool)
    requires StreamSized(s) && slot < Size(s)
    ensures StreamSized(Jammed(s, slot, e, le, ok)) && Size(Jammed(s, slot, e, le, ok)) == Size(s)
    ensures StreamOk(s) && FieldLength(e.length) ==> StreamOk(Jammed(s, slot, e, le, ok))
  {
  }

  const NULL_ADDRESS := SymAddr(0, "")

  /** What a Jam that passes its checks writes locally and to the buffer; None is a rejected Jam. */
  function JamEntries(env: Env, length: u16, delay: u16, address: SymAddr): Option<(ControlEntry, LoadEntry)> {
    if length == 0 then Some((Entry(0, 0, 0), Entry(0, 0, NULL_ADDRESS)))
    else
      match JamChecks(env, length, address)
      case Rejected(_) => None
      case Accepted(resolved) => Some((Entry(length, delay, resolved), Entry(length, delay, address)))
  }

  predicate ValidId(id: nat, count: nat) {
    1 <= id <= count
  }

  function JamDwell(env: Env, s: Stream, entryId: u16, length: u16, delay: u16, address: SymAddr, ok: bool): Stream
    requires |s.local.setup.entry| == |s.buffer.entry| <= MAX_TABLE_SIZE
  {
    if !ValidId(entryId, |s.buffer.entry|) then s
    else
      match JamEntries(env, length, delay, address)
      case None => s
      case Some((e, le)) => Jammed(s, entryId - 1, e, le, ok)
  }

  function StartStream(s: Stream, ok: bool): Stream {
    s.(local := Started(s.local), buffer := if ok then s.buffer.(enabled := ENABLED) else s.buffer)
  }

  function StopStream(s: Stream, ok: bool): Stream {
    s.(local := Stopped(s.local), buffer := if ok then s.buffer.(enabled := DISABLED) else s.buffer)
  }

  /** A signature without a NUL is rejected. */
  function SignStream(s: Stream, signature: string, ok: bool): Stream {
    if !HasNul(signature) then s
    else
      s.(local := s.local.(setup := s.local.setup.(signature := CopySignature(signature))),
         buffer := if ok then s.buffer.(signature := CopySignature(signature)) else s.buffer)
  }

  /** Table Services has put a validated load in place; it is copied in if its address is obtained. */
  function LoadStream(env: Env, s: Stream, tbl: LoadTable, ok: bool): Stream
    requires |tbl.entry| <= MAX_TABLE_SIZE
  {
    s.(local := if ok then Loaded(env, s.local, tbl) else s.local, buffer := tbl)
  }

  lemma JamOk(env: Env, s: Stream, entryId: u16, length: u16, delay: u16, address: SymAddr, ok: bool)
    requires StreamSized(s)
    ensures StreamSized(JamDwell(env, s, entryId, length, delay, address, ok))
    ensures Size(JamDwell(env, s, entryId, length, delay, address, ok)) == Size(s)
    ensures StreamOk(s) ==> StreamOk(JamDwell(env, s, entryId, length, delay, address, ok))
  {
    hide Jammed;
    var entries := JamEntries(env, length, delay, address);
    if ValidId(entryId, |s.buffer.entry|) && entries.Some? {
      JammedOk(s, entryId - 1, entries.value.0, entries.value.1, ok);
    }
  }

  /** A wakeup of a stream whose lengths are legal. */
  ghost function Woken(s: Stream, mem: Memory, now: nat): Stream
    requires WellFormed(s.local)
  {
    if Hangs(s.local) then s.(hung := true)
    else
      var w := Wakeup(s.local, mem, now);
      s.(local := s.local.(cursor := w.cursor), trace := s.trace + w.events)
  }

  /** A wakeup of any stream. After one that does not end, or that writes outside the data area,
      nothing more can be said: the stream is hung for good. */
  ghost function WakeStream(s: Stream, mem: Memory, now: nat): (r: Stream)
    requires StreamSized(s)
    ensures StreamSized(r) && Size(r) == Size(s) && SignatureLength(r) == SignatureLength(s)
    ensures StreamOk(s) ==> r == Woken(s, mem, now) && StreamOk(r)
  {
    assert StreamOk(s) ==>
        WakeupAny(s.local, mem, now) == if Hangs(s.local) then None else Some(Wakeup(s.local, mem, now)) by {
      if StreamOk(s) {
        WakeupAnyIs(s.local, mem, now);
      }
    }
    match WakeupAny(s.local, mem, now)
    case None => s.(hung := true)
    case Some(w) => s.(local := s.local.(cursor := w.cursor), trace := s.trace + w.events)
  }

  /** One action. */
  ghost function Perform(env: Env, mem: Memory, now: nat, s: Stream, a: Action): (r: Stream)
    requires StreamSized(s) && ActionSized(Size(s), SignatureLength(s), a)
    ensures StreamSized(r) && Size(r) == Size(s) && SignatureLength(r) == SignatureLength(s)
    ensures StreamOk(s) && ActionLegal(Size(s), SignatureLength(s), a) ==> StreamOk(r)
  {
    if s.hung then s
    else
      match a
      case Wake => WakeStream(s, mem, now)
      case Start(ok) => SwitchOk(s, ok); StartStream(s, ok)
      case Stop(ok) => SwitchOk(s, ok); StopStream(s, ok)
      case Jam(entryId, length, delay, address, ok) =>
        JamOk(env, s, entryId, length, delay, address, ok);
        JamDwell(env, s, entryId, length, delay, address, ok)
      case SetSignature(signature, ok) => SignOk(s, signature, ok); SignStream(s, signature, ok)
      case Load(tbl, ok) => LoadOk(env, s, tbl, ok); LoadStream(env, s, tbl, ok)
  }
}
