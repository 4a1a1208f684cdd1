/** Table masks: the bits of a command mask and the enable bits of housekeeping. */
module Telemetry {
  import opened Types

  const WIDTH := 16

  /** A uint16 as its bits, lowest first. */
  type Word16 = w: seq<bool> | |w| == WIDTH witness seq(WIDTH, _ => false)

  function Or(a: Word16, b: Word16): Word16 {
    seq(WIDTH, i requires 0 <= i < WIDTH => a[i] || b[i])
  }

  function And(a: Word16, b: Word16): Word16 {
    seq(WIDTH, i requires 0 <= i < WIDTH => a[i] && b[i])
  }

  function Not(a: Word16): Word16 {
    seq(WIDTH, i requires 0 <= i < WIDTH => !a[i])
  }

  function ShiftRight(a: Word16, n: nat): Word16 {
    seq(WIDTH, i requires 0 <= i < WIDTH => i + n < WIDTH && a[i + n])
  }

  function ShiftLeft(a: Word16, n: nat): Word16 {
    seq(WIDTH, i requires 0 <= i < WIDTH => i >= n && a[i - n])
  }

  function PowerOfTwo(n: nat): Pos {
    if n == 0 then 1 else 2 * PowerOfTwo(n - 1)
  }

  /** Binary digits of a number. */
  function ToWord(n: u16): Word16 {
    seq(WIDTH, i requires 0 <= i < WIDTH => n / PowerOfTwo(i) % 2 == 1)
  }

  lemma SmallQuotient(n: nat, d: Pos)
    requires n < d
    ensures n / d == 0
  {
  }

  lemma SmallWord(n: u16, i: nat)
    requires n == 0 || n == 1
    requires i < WIDTH
    ensures ToWord(n)[i] <==> n == 1 && i == 0
  {
    if i > 0 {
      SmallQuotient(n, PowerOfTwo(i));
    }
  }

  /** Shift the mask right TableId - 1 times and look whether the result is odd. */
  predicate TableIsInMask(tableId: nat, mask: Word16)
    requires tableId >= 1
  {
    And(ShiftRight(mask, tableId - 1), ToWord(1)) == ToWord(1)
  }

  lemma InMaskIsBit(tableId: nat, mask: Word16)
    requires tableId >= 1
    ensures TableIsInMask(tableId, mask) <==> tableId <= WIDTH && mask[tableId - 1]
  {
    var odd := And(ShiftRight(mask, tableId - 1), ToWord(1));
    forall i: nat | i < WIDTH ensures ToWord(1)[i] <==> i == 0 {
      SmallWord(1, i);
    }
    if odd == ToWord(1) {
      assert odd[0];
    } else {
      var i :| 0 <= i < WIDTH && odd[i] != ToWord(1)[i];
      assert i == 0;
    }
  }

  /** Table `index`, counted from 0, is addressed by the mask. */
  predicate Addressed(index: nat, mask: Word16) {
    TableIsInMask(index + 1, mask)
  }

  function AnyAddressed(mask: Word16, n: nat): (r: bool)
    ensures r <==> exists i :: 0 <= i < n && Addressed(i, mask)
  {
    n > 0 && (AnyAddressed(mask, n - 1) || Addressed(n - 1, mask))
  }

  /** Addressed tables among the first n whose buffer could not be accessed. */
  function Failures(mask: Word16, accessOk: seq<bool>, n: nat): nat
    requires n <= |accessOk|
  {
    if n == 0 then 0
    else Failures(mask, accessOk, n - 1) + if Addressed(n - 1, mask) && !accessOk[n - 1] then 1 else 0
  }

  /** The indices of those tables, in terms of the mask's bits. */
  function Failing(mask: Word16, accessOk: seq<bool>, n: nat): set<nat>
    requires n <= |accessOk|
  {
    set i: nat | i < n && i < WIDTH && mask[i] && !accessOk[i]
  }

  lemma FailingNext(mask: Word16, accessOk: seq<bool>, n: nat)
    requires n < |accessOk|
    ensures Failing(mask, accessOk, n + 1) ==
            if Addressed(n, mask) && !accessOk[n] then Failing(mask, accessOk, n) + {n} else Failing(mask, accessOk, n)
    ensures n !in Failing(mask, accessOk, n)
  {
    hide TableIsInMask;
    InMaskIsBit(n + 1, mask);
  }

  /** The error count is the number of tables whose mask bit is set and whose access fails. */
  lemma {:induction false} FailuresAre(mask: Word16, accessOk: seq<bool>, n: nat)
    requires n <= |accessOk|
    ensures Failures(mask, accessOk, n) == |Failing(mask, accessOk, n)|
  {
    hide Failing, Addressed;
    if n == 0 {
      NoneFailing(mask, accessOk);
    } else {
      FailuresAre(mask, accessOk, n - 1);
      FailingNext(mask, accessOk, n - 1);
    }
  }

  lemma NoneFailing(mask: Word16, accessOk: seq<bool>)
    ensures Failing(mask, accessOk, 0) == {}
  {
  }

  lemma {:induction false} NoneAddressed(mask: Word16, accessOk: seq<bool>, n: nat)
    requires n <= |accessOk| && !AnyAddressed(mask, n)
    ensures Failures(mask, accessOk, n) == 0
  {
    if n > 0 {
      NoneAddressed(mask, accessOk, n - 1);
    }
  }

  // ----- the enable bits of housekeeping

  /** Or together each table's Enabled flag shifted to its place. */
  function EnableBits(flags: seq<u16>, k: nat): Word16
    requires k <= |flags|
  {
    if k == 0 then ToWord(0) else Or(EnableBits(flags, k - 1), ShiftLeft(ToWord(flags[k - 1]), k - 1))
  }

  ghost predicate Flags(flags: seq<u16>) {
    forall i :: 0 <= i < |flags| ==> flags[i] == DISABLED || flags[i] == ENABLED
  }

  /** Bit i of the housekeeping mask is table i's flag and no other's. */
  lemma {:induction false} EnableBitIs(flags: seq<u16>, k: nat, i: nat)
    requires Flags(flags) && k <= |flags| && i < WIDTH
    ensures EnableBits(flags, k)[i] <==> i < k && flags[i] == ENABLED
  {
    if k == 0 {
      SmallWord(0, i);
    } else {
      EnableBitIs(flags, k - 1, i);
      if i >= k - 1 {
        SmallWord(flags[k - 1], i - (k - 1));
      }
    }
  }

  /** The bits that belong to one of n tables: 2 to the n, less one. */
  function AllTables(n: nat): Word16 {
    seq(WIDTH, i requires 0 <= i < WIDTH => i < n)
  }

  datatype MaskCommand = StartMask(mask: Word16) | StopMask(mask: Word16)

  /** What one Start or Stop command does to the Enabled flags, table by table. */
  function Switched(flags: seq<u16>, cmd: MaskCommand): (r: seq<u16>)
    ensures |r| == |flags|
    ensures Flags(flags) ==> Flags(r)
  {
    seq(|flags|, i requires 0 <= i < |flags| =>
      if Addressed(i, cmd.mask) then (if cmd.StartMask? then ENABLED else DISABLED) else flags[i])
  }

  lemma SwitchedIs(before: seq<u16>, after: seq<u16>, cmd: MaskCommand)
    requires |after| == |before|
    requires forall i :: 0 <= i < |after| ==>
               after[i] == if Addressed(i, cmd.mask) then (if cmd.StartMask? then ENABLED else DISABLED) else before[i]
    ensures after == Switched(before, cmd)
  {
  }

  /** What it does to the housekeeping mask, as one operation on words. */
  function SwitchedBits(bits: Word16, cmd: MaskCommand, n: nat): Word16 {
    match cmd
    case StartMask(mask) => Or(bits, And(mask, AllTables(n)))
    case StopMask(mask) => And(bits, Not(mask))
  }

  lemma SwitchedBitIs(bits: Word16, cmd: MaskCommand, n: nat, i: nat)
    requires i < WIDTH
    ensures SwitchedBits(bits, cmd, n)[i] ==
            if cmd.StartMask? then bits[i] || (cmd.mask[i] && i < n) else bits[i] && !cmd.mask[i]
  {
  }

  lemma SwitchBits(flags: seq<u16>, cmd: MaskCommand)
    requires Flags(flags) && |flags| <= WIDTH
    ensures EnableBits(Switched(flags, cmd), |flags|) == SwitchedBits(EnableBits(flags, |flags|), cmd, |flags|)
  {
    hide EnableBits, SwitchedBits, Switched;
    var n := |flags|;
    var a, b := EnableBits(Switched(flags, cmd), n), SwitchedBits(EnableBits(flags, n), cmd, n);
    forall i: nat | i < WIDTH ensures a[i] == b[i] {
      SwitchBit(flags, cmd, i);
    }
  }

  lemma SwitchBit(flags: seq<u16>, cmd: MaskCommand, i: nat)
    requires Flags(flags) && |flags| <= WIDTH && i < WIDTH
    ensures EnableBits(Switched(flags, cmd), |flags|)[i] == SwitchedBits(EnableBits(flags, |flags|), cmd, |flags|)[i]
  {
    hide EnableBits, TableIsInMask, SwitchedBits;
    SwitchedBitIs(EnableBits(flags, |flags|), cmd, |flags|, i);
    EnableBitIs(flags, |flags|, i);
    EnableBitIs(Switched(flags, cmd), |flags|, i);
    InMaskIsBit(i + 1, cmd.mask);
  }

  function FlagsAfter(flags: seq<u16>, cmds: seq<MaskCommand>): (r: seq<u16>)
    ensures |r| == |flags|
    ensures Flags(flags) ==> Flags(r)
  {
    if cmds == [] then flags else Switched(FlagsAfter(flags, cmds[..|cmds| - 1]), cmds[|cmds| - 1])
  }

  function BitsAfter(bits: Word16, cmds: seq<MaskCommand>, n: nat): Word16 {
    if cmds == [] then bits else SwitchedBits(BitsAfter(bits, cmds[..|cmds| - 1], n), cmds[|cmds| - 1], n)
  }

  /** Over any run of Start and Stop commands the housekeeping mask is the fold of "or with the
      mask's table bits" and "and with the mask's complement". */
  lemma {:induction false} MaskFold(flags: seq<u16>, cmds: seq<MaskCommand>)
    requires Flags(flags) && |flags| <= WIDTH
    ensures EnableBits(FlagsAfter(flags, cmds), |flags|) == BitsAfter(EnableBits(flags, |flags|), cmds, |flags|)
  {
    if cmds != [] {
      MaskFold(flags, cmds[..|cmds| - 1]);
      SwitchBits(FlagsAfter(flags, cmds[..|cmds| - 1]), cmds[|cmds| - 1]);
    }
  }
}
