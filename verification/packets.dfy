/** The wire unit of the protocol: one datagram with exactly one control flag,
    sequence and acknowledgement numbers, addressing, a payload and an
    integrity checksum. */
module Packets {

  /** Java's 32-bit `int`, in which sequence and acknowledgement numbers are
      kept. */
  type int32 = x: int | -0x8000_0000 <= x < 0x8000_0000

  /** Java's `int` arithmetic: the result of an addition or subtraction
      wrapped into 32 bits (two's complement). */
  function Wrap(x: int): (r: int32)
    ensures -0x8000_0000 <= x < 0x8000_0000 ==> r == x
    decreases if x < 0 then -x else x + 1
  {
    if x < -0x8000_0000 then Wrap(x + 0x1_0000_0000)
    else if x >= 0x8000_0000 then Wrap(x - 0x1_0000_0000)
    else x
  }

  /** `Wrap` is the two's-complement narrowing: shift into [0, 2^32), reduce
      modulo 2^32, shift back. */
  lemma {:induction false} WrapIsNarrowing(x: int)
    ensures Wrap(x) == (x + 0x8000_0000) % 0x1_0000_0000 - 0x8000_0000
    decreases if x < 0 then -x else x + 1
  {
    if x < -0x8000_0000 {
      WrapIsNarrowing(x + 0x1_0000_0000);
    } else if x >= 0x8000_0000 {
      WrapIsNarrowing(x - 0x1_0000_0000);
    }
  }

  /** Wrapping an intermediate result does not change the final one. */
  lemma WrapAdd(x: int, y: int)
    ensures Wrap(Wrap(x) + y) == Wrap(x + y)
  {
    WrapIsNarrowing(x);
    WrapIsNarrowing(Wrap(x) + y);
    WrapIsNarrowing(x + y);
  }

  /** Adding any `d` with 0 < d < 2^32 to a 32-bit number never wraps back
      to it: a run of consecutive numbers shorter than 2^32 has no repeats. */
  lemma WrapShiftDiffers(x: int32, d: int)
    requires 0 < d < 0x1_0000_0000
    ensures Wrap(x + d) != x
  {
    WrapIsNarrowing(x + d);
  }

  /** The control flag of a datagram; NONE marks a data packet. */
  datatype Flag = NONE | SYN | SYN_ACK | ACK | FIN

  /** A received datagram. `checksum` is the value stored in the packet;
      `recomputed` is what the datagram container's checksum routine yields
      over the fields as they arrived. The checksum arithmetic itself lives
      outside the connection layer, so only the two values are kept and only
      their equality is ever looked at. */
  datatype Packet = Packet(
    flag: Flag,
    seqNr: int32,
    ackNr: int32,
    srcAddr: string,
    srcPort: int,
    dstAddr: string,
    dstPort: int,
    payload: string,
    checksum: int,
    recomputed: int)
  {
    /** The packet was not corrupted in transit. */
    predicate Intact() {
      checksum == recomputed
    }
  }
}
