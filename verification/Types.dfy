/** Values shared by the Memory Dwell model: machine integers, table entries, the
    control structure of one dwell table, and what the engine does to the outside. */
module Types {

  // C integer widths. Arithmetic that could leave a range is written with an explicit modulus.
  const U16_SPAN := 0x1_0000
  const U32_SPAN := 0x1_0000_0000

  type u8 = n: nat | n < 0x100
  type u16 = n: nat | n < U16_SPAN
  type u32 = n: nat | n < U32_SPAN
  type Pos = n: nat | 0 < n witness 1

  datatype Option<+T> = None | Some(value: T)

  const DISABLED: u16 := 0
  const ENABLED: u16 := 1

  // Entries are indexed by a uint8 when a load is copied, so tables hold at most 255 of them.
  const MAX_TABLE_SIZE := 255

  /** One dwell specification. The address is a symbolic address in a table load
      and a resolved number in the local control structure. */
  datatype Entry<+A> = Entry(length: u16, delay: u16, address: A)

  datatype SymAddr = SymAddr(offset: nat, symName: string)

  type LoadEntry = Entry<SymAddr>
  type ControlEntry = Entry<nat>

  /** The table as Table Services keeps it. */
  datatype LoadTable = LoadTable(enabled: int, signature: string, entry: seq<LoadEntry>)

  /** The part of a control structure that commands and loads write and wakeups only read. */
  datatype Setup = Setup(
    enabled: u16,
    addrCount: u16,
    rate: u32,
    dataSize: u16,
    entry: seq<ControlEntry>,
    signature: string)

  /** The part that wakeups move: the countdown, the position in the entries and in the
      packet, and the packet's data area. */
  datatype Cursor = Cursor(
    countdown: u32,
    currentEntry: u16,
    pktOffset: u16,
    data: seq<u8>)

  /** The control structure of one dwell stream together with its packet. */
  datatype Table = Table(setup: Setup, cursor: Cursor)

  // ----- the world outside

  /** MemReadVal: four bytes, of which the first Length are copied to the packet. */
  type Word = s: seq<u8> | |s| == 4 witness [0, 0, 0, 0]

  datatype ReadRequest = ReadRequest(wakeup: nat, slot: nat, address: nat, length: nat)

  /** What memory answers to each read; None is a failed read. */
  type Memory = ReadRequest -> Option<Word>

  datatype Packet = Packet(
    addrCount: u8,
    rate: u32,
    signature: string,
    byteCount: u16,
    data: seq<u8>)

  /** What one wakeup can do: take one entry's sample (with the status code of the
      read), or send the packet. */
  datatype Event =
    | Sample(at: nat, slot: nat, address: nat, length: nat, code: int)
    | Send(at: nat, packet: Packet)

  /** Symbol lookup, range validation and the width of an address are the platform's. */
  datatype Env = Env(
    addrSpace: Pos,
    lookup: string -> Option<nat>,
    validRange: (nat, nat) -> bool)
}
