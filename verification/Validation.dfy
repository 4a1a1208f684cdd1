/** The two validators - of table loads and of Jam arguments - and the copy of a load. */
module Validation {
  import opened Types
  import opened Summary
  import opened Signatures

  datatype Status =
    | Valid
    | ResolveError
    | InvalidAddress
    | InvalidLength
    | NotAligned
    | EnableFlagError
    | SignatureLengthError

  // ----- address checks

  /** An empty name makes the offset the address; otherwise the symbol's value plus the offset,
      in the width of an address. */
  function ResolveSymAddr(env: Env, a: SymAddr): Option<nat> {
    if |a.symName| == 0 then Some(a.offset)
    else
      match env.lookup(a.symName)
      case Some(value) => Some((value + a.offset) % env.addrSpace)
      case None => None
  }

  /** What resolution means: without a name the offset itself; with an unknown one nothing; with a known
      one the sum of the symbol's value and the offset, up to whole address spaces, and the sum itself
      where that is an address. */
  lemma ResolvedAddress(env: Env, a: SymAddr)
    ensures a.symName == "" ==> ResolveSymAddr(env, a) == Some(a.offset)
    ensures a.symName != "" && env.lookup(a.symName) == None ==> ResolveSymAddr(env, a) == None
    ensures a.symName != "" && env.lookup(a.symName).Some? ==>
              var sum := env.lookup(a.symName).value + a.offset;
              && ResolveSymAddr(env, a).Some?
              && ResolveSymAddr(env, a).value < env.addrSpace
              && (exists wraps: nat :: sum == ResolveSymAddr(env, a).value + wraps * env.addrSpace)
              && (sum < env.addrSpace ==> ResolveSymAddr(env, a) == ResolveSymAddr(env, SymAddr(sum, "")))
  {
    if a.symName != "" && env.lookup(a.symName).Some? {
      var sum := env.lookup(a.symName).value + a.offset;
      var wraps := sum / env.addrSpace;
      assert sum == ResolveSymAddr(env, a).value + wraps * env.addrSpace;
    }
  }

  predicate Verify32Aligned(address: nat, size: nat) {
    address % 4 == 0 && size % 4 == 0
  }

  predicate Verify16Aligned(address: nat, size: nat) {
    address % 2 == 0 && size % 2 == 0
  }

  /** The documented meaning of a good dwell: 1, 2 or 4 bytes in a valid range, aligned to their size. */
  predicate GoodRead(env: Env, address: nat, length: nat) {
    && (length == 1 || length == 2 || length == 4)
    && env.validRange(address, length)
    && address % length == 0
  }

  /** The documented meaning of a valid entry: null, or a good dwell at an address that resolves. */
  predicate GoodEntry(env: Env, e: LoadEntry) {
    e.length == 0 ||
    (ResolveSymAddr(env, e.address).Some? && GoodRead(env, ResolveSymAddr(env, e.address).value, e.length))
  }

  // ----- which fault is reported

  predicate DwellLength(length: nat) {
    length == 1 || length == 2 || length == 4
  }

  /** The status of a non-null entry with this resolved address, fault by fault. Range and length are
      reported in this order for a load, and the other way round for a Jam. */
  predicate FaultOf(env: Env, resolved: Option<nat>, length: nat, rangeFirst: bool, status: Status) {
    match resolved
    case None => status == ResolveError
    case Some(address) =>
      var inRange, isLength := env.validRange(address, length), DwellLength(length);
      && (status == InvalidAddress <==> !inRange && (rangeFirst || isLength))
      && (status == InvalidLength <==> !isLength && (inRange || !rangeFirst))
      && (status == NotAligned <==> inRange && isLength && address % length != 0)
      && (status == Valid <==> inRange && isLength && address % length == 0)
  }

  // ----- the table validator

  function ValidTableEntry(env: Env, e: LoadEntry): (r: Status)
    ensures r == Valid <==> GoodEntry(env, e)
    ensures e.length != 0 ==> FaultOf(env, ResolveSymAddr(env, e.address), e.length, true, r)
  {
    if e.length == 0 then Valid
    else
      match ResolveSymAddr(env, e.address)
      case None => ResolveError
      case Some(address) =>
        if !env.validRange(address, e.length) then InvalidAddress
        else if !FieldLength(e.length) then InvalidLength
        else if e.length == 4 && !Verify32Aligned(address, e.length) then NotAligned
        else if e.length == 2 && !Verify16Aligned(address, e.length) then NotAligned
        else Valid
  }

  predicate PrefixGood(env: Env, entry: seq<LoadEntry>, k: nat)
    requires k <= |entry|
  {
    forall i :: 0 <= i < k ==> GoodEntry(env, entry[i])
  }

  function GoodCount(env: Env, entry: seq<LoadEntry>, k: nat): (n: nat)
    requires k <= |entry|
    ensures n <= k
    ensures n == k <==> PrefixGood(env, entry, k)
  {
    if k == 0 then 0
    else GoodCount(env, entry, k - 1) + if GoodEntry(env, entry[k - 1]) then 1 else 0
  }

  /** The indices of the good entries among the first k. */
  function GoodAmong(env: Env, entry: seq<LoadEntry>, k: nat): set<nat>
    requires k <= |entry|
  {
    set i: nat | i < k && GoodEntry(env, entry[i])
  }

  lemma GoodAmongNext(env: Env, entry: seq<LoadEntry>, k: nat)
    requires k < |entry|
    ensures GoodAmong(env, entry, k + 1) ==
            if GoodEntry(env, entry[k]) then GoodAmong(env, entry, k) + {k} else GoodAmong(env, entry, k)
    ensures k !in GoodAmong(env, entry, k)
  {
    hide GoodEntry;
  }

  /** The count is the number of those indices. */
  lemma {:induction false} GoodCountIs(env: Env, entry: seq<LoadEntry>, k: nat)
    requires k <= |entry|
    ensures GoodCount(env, entry, k) == |GoodAmong(env, entry, k)|
  {
    hide GoodEntry, GoodAmong;
    if k == 0 {
      NoneGood(env, entry);
    } else {
      GoodCountIs(env, entry, k - 1);
      GoodAmongNext(env, entry, k - 1);
    }
  }

  lemma NoneGood(env: Env, entry: seq<LoadEntry>)
    ensures GoodAmong(env, entry, 0) == {}
  {
  }

  /** Validate the entries up to the first null one. */
  method CheckTableEntries(env: Env, entry: seq<LoadEntry>)
    returns (status: Status, errorEntry: nat, goodCount: nat, badCount: nat, unusedCount: nat)
    ensures status == Valid <==> PrefixGood(env, entry, ActiveCount(entry))
    ensures status != Valid ==>
              && errorEntry < ActiveCount(entry)
              && PrefixGood(env, entry, errorEntry)
              && status == ValidTableEntry(env, entry[errorEntry])
    ensures goodCount == GoodCount(env, entry, ActiveCount(entry))
    ensures goodCount + badCount == ActiveCount(entry)
    ensures goodCount + badCount + unusedCount == |entry|
  {
    var firstBadIndex := -1;
    status, errorEntry := Valid, 0;
    goodCount, badCount := 0, 0;
    var entryIndex := 0;
    while entryIndex < |entry|
      invariant entryIndex <= |entry|
      invariant forall i :: 0 <= i < entryIndex ==> entry[i].length != 0
      invariant goodCount == GoodCount(env, entry, entryIndex)
      invariant goodCount + badCount == entryIndex
      invariant -1 <= firstBadIndex < entryIndex
      invariant firstBadIndex == -1 ==> status == Valid && badCount == 0
      invariant firstBadIndex != -1 ==>
                  && errorEntry == firstBadIndex
                  && badCount > 0
                  && PrefixGood(env, entry, errorEntry)
                  && status == ValidTableEntry(env, entry[errorEntry]) != Valid
    {
      var entryStatus := ValidTableEntry(env, entry[entryIndex]);
      if entryStatus == Valid {
        if entry[entryIndex].length == 0 {
          break;
        } else {
          goodCount := goodCount + 1;
        }
      } else {
        badCount := badCount + 1;
        if firstBadIndex == -1 {
          firstBadIndex := entryIndex;
          errorEntry := entryIndex;
          status := entryStatus;
        }
      }
      entryIndex := entryIndex + 1;
    }
    ActiveCountIs(entry, entryIndex);
    unusedCount := |entry| - entryIndex;
  }

  /** Entry count, byte size and rate of the active part of a load, in their own widths. */
  method ReadDwellTable(entry: seq<LoadEntry>) returns (activeAddrCount: nat, size: u16, rate: u32)
    requires |entry| <= MAX_TABLE_SIZE
    ensures activeAddrCount == ActiveCount(entry)
    ensures size == LengthSum(entry, ActiveCount(entry)) % U16_SPAN
    ensures rate == DelaySum(entry, ActiveCount(entry))
  {
    activeAddrCount, size, rate := 0, 0, 0;
    var entryId := 0;
    while entryId < |entry| && entry[entryId].length != 0
      invariant entryId == activeAddrCount <= |entry|
      invariant forall i :: 0 <= i < entryId ==> entry[i].length != 0
      invariant size == LengthSum(entry, entryId) % U16_SPAN
      invariant rate == DelaySum(entry, entryId)
    {
      WrapAdd(LengthSum(entry, entryId), entry[entryId].length);
      activeAddrCount := activeAddrCount + 1;
      size := (size + entry[entryId].length) % U16_SPAN;
      DelaySumBound(entry, entryId + 1);
      rate := (rate + entry[entryId].delay) % U32_SPAN;
      entryId := entryId + 1;
    }
    ActiveCountIs(entry, entryId);
  }

  /** What the table validator accepts. */
  ghost predicate Acceptable(env: Env, tbl: LoadTable) {
    && (tbl.enabled == DISABLED || tbl.enabled == ENABLED)
    && HasNul(tbl.signature)
    && PrefixGood(env, tbl.entry, ActiveCount(tbl.entry))
  }

  /** An accepted, enabled load whose active entries have no delay at all. */
  ghost predicate NoticeDue(env: Env, tbl: LoadTable) {
    Acceptable(env, tbl) && tbl.enabled == ENABLED && DelaySum(tbl.entry, ActiveCount(tbl.entry)) == 0
  }

  /** The validation callback. `zeroRate` says that the "no processing will occur" notice is issued. */
  method TableValidationFunc(env: Env, tbl: LoadTable) returns (status: Status, errorEntry: nat, zeroRate: bool)
    requires |tbl.entry| <= MAX_TABLE_SIZE
    ensures status == Valid <==> Acceptable(env, tbl)
    ensures status == EnableFlagError <==> tbl.enabled != DISABLED && tbl.enabled != ENABLED
    ensures status == SignatureLengthError <==>
              (tbl.enabled == DISABLED || tbl.enabled == ENABLED) && !HasNul(tbl.signature)
    ensures status != Valid && status != EnableFlagError && status != SignatureLengthError ==>
              && errorEntry < ActiveCount(tbl.entry)
              && PrefixGood(env, tbl.entry, errorEntry)
              && status == ValidTableEntry(env, tbl.entry[errorEntry])
    ensures zeroRate <==> NoticeDue(env, tbl)
  {
    zeroRate, errorEntry := false, 0;
    var stringLength := 0;
    while stringLength < |tbl.signature|
      invariant stringLength <= |tbl.signature|
      invariant forall i :: 0 <= i < stringLength ==> tbl.signature[i] != '\0'
    {
      if tbl.signature[stringLength] == '\0' {
        break;
      }
      stringLength := stringLength + 1;
    }
    if tbl.enabled != DISABLED && tbl.enabled != ENABLED {
      status := EnableFlagError;
    } else if stringLength >= |tbl.signature| {
      status := SignatureLengthError;
    } else {
      var activeEntryCount, size, rate := ReadDwellTable(tbl.entry);
      var good, bad, unused;
      status, errorEntry, good, bad, unused := CheckTableEntries(env, tbl.entry);
      if status == Valid {
        zeroRate := tbl.enabled == ENABLED && rate == 0;
      }
    }
  }

  // ----- the Jam validator

  datatype JamVerdict =
    | Accepted(address: nat)
    | Rejected(why: Status)

  /** The checks of a non-null Jam, in the command's own order. */
  function JamChecks(env: Env, length: u16, a: SymAddr): (r: JamVerdict)
    requires length != 0
    ensures FaultOf(env, ResolveSymAddr(env, a), length, false, if r.Accepted? then Valid else r.why)
    ensures r.Accepted? ==> ResolveSymAddr(env, a) == Some(r.address)
  {
    match ResolveSymAddr(env, a)
    case None => Rejected(ResolveError)
    case Some(address) =>
      if !FieldLength(length) then Rejected(InvalidLength)
      else if !env.validRange(address, length) then Rejected(InvalidAddress)
      else if length == 4 && !Verify32Aligned(address, length) then Rejected(NotAligned)
      else if length == 2 && !Verify16Aligned(address, length) then Rejected(NotAligned)
      else Accepted(address)
  }

  /** The two validators accept the same entries. They also name the same fault, unless both the
      range and the length are wrong: then the load is reported for its range and the Jam for its length. */
  lemma ValidatorsAgree(env: Env, e: LoadEntry)
    requires e.length != 0
    ensures JamChecks(env, e.length, e.address).Accepted? <==> ValidTableEntry(env, e) == Valid
    ensures JamChecks(env, e.length, e.address).Accepted? ==>
              && ResolveSymAddr(env, e.address) == Some(JamChecks(env, e.length, e.address).address)
              && GoodRead(env, JamChecks(env, e.length, e.address).address, e.length)
    ensures JamChecks(env, e.length, e.address).Rejected? ==>
              (JamChecks(env, e.length, e.address).why == ValidTableEntry(env, e) <==>
               !(ResolveSymAddr(env, e.address).Some? && !FieldLength(e.length) &&
                 !env.validRange(ResolveSymAddr(env, e.address).value, e.length)))
  {
  }
}
