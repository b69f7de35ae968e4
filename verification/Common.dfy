/** Number types, small helpers and the packet format shared by every part of the model. */
module Common {

  newtype byte = b: int | 0 <= b < 256

  type uint16 = n: int | 0 <= n < 65536

  /** How many block numbers there are before they repeat. */
  const WRAP := 65536

  const MAX_RETRY_COUNT := 5

  /** sizeof(Packet_t): opcode and one more 16-bit word. */
  const HEADER := 4

  const BLKSIZE_MIN := 8
  const BLKSIZE_DEFAULT := 512
  const BLKSIZE_MAX := 65464

  /** A block size that both ends have accepted. */
  type BlockSize = n: int | BLKSIZE_MIN <= n <= BLKSIZE_MAX witness BLKSIZE_DEFAULT

  datatype Option<+T> = None | Some(value: T)

  /** The conversion to `uint16_t`. */
  function Wrap(n: int): uint16 {
    n % WRAP
  }

  /** Counting on in 16 bits: the next number is the wrapped next number, and never the same. */
  lemma NextNumber(n: nat)
    ensures Wrap(Wrap(n) + 1) == Wrap(n + 1) != Wrap(n)
  {
  }

  lemma SameNumber(n: int)
    ensures Wrap(n + WRAP) == Wrap(n)
  {
  }

  /** Two things that share a number are the same or 65536 apart. */
  lemma SharedNumber(a: int, b: int)
    requires Wrap(a) == Wrap(b) && a < b
    ensures a + WRAP <= b
  {
  }

  function Min(a: int, b: int): int {
    if a < b then a else b
  }
}

/** Datagrams of at least four bytes, as either end reads them. */
module Packets {
  import opened Common

  const RRQ: uint16 := 1
  const WRQ: uint16 := 2
  const DATA: uint16 := 3
  const ACK: uint16 := 4
  const ERROR: uint16 := 5
  const DRQ: uint16 := 6

  /** ERROR with its two bytes exchanged: what the transmitter really compares with. */
  const SWAPPED_ERROR: uint16 := 0x0500

  /** The opcode, the second 16-bit word (block number or error code) and all that follows. */
  datatype Packet = Packet(opcode: uint16, word: uint16, body: seq<byte>)

  function DataPacket(number: uint16, body: seq<byte>): Packet {
    Packet(DATA, number, body)
  }

  function AckPacket(number: uint16): Packet {
    Packet(ACK, number, [])
  }

  /** An ERROR packet; its code and text are not modelled. */
  function ErrorPacket(): Packet {
    Packet(ERROR, 0, [])
  }

  /** What `recvfrom` reports: a datagram, -1 with ETIMEDOUT, or -1 with any other errno. */
  datatype Recv = Datagram(packet: Packet) | TimedOut | Failed
}
