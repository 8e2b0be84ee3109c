/** One endpoint of a connection: its state, addressing, sequence counter and
    the last packet it accepted, together with the packet validator that gates
    every state transition, and the abstract outcomes through which the
    unreliable network is seen. */
module Connection {
  import opened Options
  import opened Packets
  import Ports

  datatype State =
    | CLOSED | LISTEN | SYN_SENT | SYN_RCVD | ESTABLISHED
    | FIN_WAIT_1 | FIN_WAIT_2 | CLOSE_WAIT | LAST_ACK | TIME_WAIT

  /** The fields of a connection that the protocol logic reads or writes.
      `lastValid` is None while no packet has passed validation. */
  datatype Conn = Conn(
    state: State,
    myAddress: string,
    myPort: int,
    remoteAddress: string,
    remotePort: int,
    nextSequenceNo: int32,
    lastValid: Option<Packet>)

  /** The exceptions a public operation can end with. */
  datatype Error =
    | NotConnected   // the operation needs an established connection
    | IoError        // an I/O error raised by the operation itself
    | ChannelFault   // an exception of a network helper, passed on unchanged
    | NullPacket     // the validator was handed the null of a helper that received nothing

  /** What one call of an outgoing-packet helper (building and sending a
      control, acknowledgement or data packet) did: how far it moved the
      sequence counter, and whether it threw. */
  datatype Emit = Emit(advance: int, thrown: bool)

  /** What one call of a receiving helper produced: a packet, null, or an
      exception. */
  datatype Reply = Got(packet: Packet) | NoPacket | Fault

  /** The outcomes the network delivers to one operation, in the order the
      operation asks for them: one queue for outgoing-packet helpers and one
      for receiving helpers. */
  datatype Channel = Channel(sends: seq<Emit>, replies: seq<Reply>)

  /** How an operation ends. `Pending` means the channel ran out of outcomes
      before the operation returned: the call is still blocked, and `conn`
      is the connection as it stands at that point. */
  datatype Outcome<T> =
    | Return(conn: Conn, value: T)
    | Raise(conn: Conn, error: Error)
    | Pending(conn: Conn)

  /** The connection after an outgoing-packet helper has run. */
  function Advance(c: Conn, e: Emit): Conn {
    c.(nextSequenceNo := Wrap(c.nextSequenceNo + e.advance))
  }

  /** A new connection bound to `myPort`, which is added to the port table.
      `hostAddress` stands for the local host lookup and `initialSeq` for the
      initial sequence number the base class picks. */
  function NewConnection(used: set<int>, myPort: int, hostAddress: string, initialSeq: int32)
    : (r: (Conn, set<int>))
    ensures r.0.state == CLOSED && r.0.lastValid == None
    ensures r.0.myPort == myPort && r.0.myAddress == hostAddress
    ensures r.0.nextSequenceNo == initialSeq
    ensures r.1 == Ports.Register(used, myPort)
  {
    (Conn(CLOSED, hostAddress, myPort, "", 0, initialSeq, None), Ports.Register(used, myPort))
  }

  // ---------------------------------------------------------------------
  // The validator, and an independent statement of what it accepts.
  // ---------------------------------------------------------------------

  /** The flags a connection in state `s` lets through. */
  predicate FlagAdmitted(s: State, f: Flag) {
    match s
    case SYN_SENT => f == SYN_ACK
    case SYN_RCVD | FIN_WAIT_1 | LAST_ACK => f == ACK
    case LISTEN => f == SYN
    case FIN_WAIT_2 => f == FIN
    case ESTABLISHED => f == NONE || f == ACK || f == FIN
    case CLOSED | CLOSE_WAIT | TIME_WAIT => true
  }

  /** An ACK acknowledges the packet most recently sent (the counter less
      one, in 32-bit arithmetic). */
  predicate AckCurrent(c: Conn, p: Packet) {
    p.flag == ACK ==> p.ackNr == Wrap(c.nextSequenceNo - 1)
  }

  /** Once a packet has been accepted, only its immediate successor (in
      32-bit arithmetic) is. */
  predicate InSequence(c: Conn, p: Packet) {
    c.lastValid.Some? ==> p.seqNr == Wrap(c.lastValid.value.seqNr + 1)
  }

  /** Every check of the validator, taken together. */
  predicate Admits(c: Conn, p: Packet) {
    FlagAdmitted(c.state, p.flag) && p.Intact() && AckCurrent(c, p) && InSequence(c, p)
  }

  /** The packet validator: the checks in the order `ConnectionImpl.isValid` makes them.
      The result pairs the verdict with the connection afterwards; the only
      thing that can change is the last accepted packet. */
  function IsValid(c: Conn, p: Packet): (r: (bool, Conn))
    ensures r.0 <==> Admits(c, p)
    ensures r.0 ==> r.1 == c.(lastValid := Some(p))
    ensures !r.0 ==> r.1 == c
    ensures r.1.state == c.state && r.1.nextSequenceNo == c.nextSequenceNo
  {
    var s := c.state;
    var f := p.flag;
    if s == SYN_SENT && f != SYN_ACK then (false, c)
    else if s == SYN_RCVD && f != ACK then (false, c)
    else if s == LISTEN && f != SYN then (false, c)
    else if s == FIN_WAIT_1 && f != ACK then (false, c)
    else if s == FIN_WAIT_2 && f != FIN then (false, c)
    else if s == ESTABLISHED && (f == SYN || f == SYN_ACK) then (false, c)
    else if s == LAST_ACK && f != ACK then (false, c)
    else if p.checksum != p.recomputed then (false, c)
    else if f == ACK && p.ackNr != Wrap(c.nextSequenceNo - 1) then (false, c)
    else if c.lastValid.Some? && p.seqNr != Wrap(c.lastValid.value.seqNr + 1) then (false, c)
    else (true, c.(lastValid := Some(p)))
  }

  /** A flag the state does not expect is refused, and nothing changes. */
  lemma WrongFlagRejected(c: Conn, p: Packet)
    requires
      || (c.state == SYN_SENT && p.flag != SYN_ACK)
      || ((c.state == SYN_RCVD || c.state == FIN_WAIT_1 || c.state == LAST_ACK) && p.flag != ACK)
      || (c.state == LISTEN && p.flag != SYN)
      || (c.state == FIN_WAIT_2 && p.flag != FIN)
    ensures IsValid(c, p) == (false, c)
  {
  }

  /** In ESTABLISHED the flag gate refuses exactly SYN and SYN_ACK. */
  lemma EstablishedFlagGate(c: Conn, p: Packet)
    requires c.state == ESTABLISHED
    ensures p.flag == SYN || p.flag == SYN_ACK ==> IsValid(c, p) == (false, c)
    ensures FlagAdmitted(c.state, p.flag) <==> p.flag != SYN && p.flag != SYN_ACK
  {
  }

  /** A corrupted packet is refused in every state, whatever its flag. */
  lemma CorruptedRejected(c: Conn, p: Packet)
    requires !p.Intact()
    ensures IsValid(c, p) == (false, c)
  {
  }

  /** An ACK is refused unless it acknowledges the packet sent last. */
  lemma StaleAckRejected(c: Conn, p: Packet)
    requires p.flag == ACK && p.ackNr != Wrap(c.nextSequenceNo - 1)
    ensures IsValid(c, p) == (false, c)
  {
  }

  /** After a packet has been accepted, duplicates and gaps are refused. */
  lemma OutOfSequenceRejected(c: Conn, p: Packet)
    requires c.lastValid.Some?
    requires p.seqNr != Wrap(c.lastValid.value.seqNr + 1)
    ensures IsValid(c, p) == (false, c)
  {
  }

  /** No packet is accepted twice in a row: once recorded, its own sequence
      number is no longer the expected one. */
  lemma NoDoubleAccept(c: Conn, p: Packet)
    requires IsValid(c, p).0
    ensures IsValid(IsValid(c, p).1, p) == (false, IsValid(c, p).1)
  {
  }

  // ---------------------------------------------------------------------
  // A stream of packets validated one after another.
  // ---------------------------------------------------------------------

  /** Validate `ps` in order, holding the connection's state and counter
      fixed in between: the connection afterwards and the packets that were
      accepted, in arrival order. */
  function ValidateAll(c: Conn, ps: seq<Packet>): (Conn, seq<Packet>)
    decreases |ps|
  {
    if |ps| == 0 then (c, [])
    else
      var (ok, c1) := IsValid(c, ps[0]);
      var (c2, accepted) := ValidateAll(c1, ps[1..]);
      (c2, if ok then [ps[0]] + accepted else accepted)
  }

  /** The sequence numbers of a run of packets climb by exactly one, in
      32-bit arithmetic. */
  ghost predicate Consecutive(ps: seq<Packet>) {
    forall i :: 0 < i < |ps| ==> ps[i].seqNr == Wrap(ps[i - 1].seqNr + 1)
  }

  /** Accepted packets form a gap-free, duplicate-free run that continues the
      packet accepted before the stream began. */
  lemma {:induction false} ValidateAllConsecutive(c: Conn, ps: seq<Packet>)
    ensures Consecutive(ValidateAll(c, ps).1)
    ensures var acc := ValidateAll(c, ps).1;
      |acc| > 0 && c.lastValid.Some? ==> acc[0].seqNr == Wrap(c.lastValid.value.seqNr + 1)
    decreases |ps|
  {
    if |ps| > 0 {
      var (ok, c1) := IsValid(c, ps[0]);
      ValidateAllConsecutive(c1, ps[1..]);
      var (c2, rest) := ValidateAll(c1, ps[1..]);
      if ok {
        var acc := [ps[0]] + rest;
        assert acc[1..] == rest;
        forall i | 0 < i < |acc|
          ensures acc[i].seqNr == Wrap(acc[i - 1].seqNr + 1)
        {
          if i == 1 {
            ValidateAllRecordsLast(c1, ps[1..]);
            assert c1.lastValid == Some(ps[0]);
          }
        }
      }
    }
  }

  /** After a stream, the connection remembers the last accepted packet
      (or what it remembered before, if none was), every accepted packet is
      an intact member of the stream, and state and counter are untouched. */
  lemma {:induction false} ValidateAllRecordsLast(c: Conn, ps: seq<Packet>)
    ensures var (c', acc) := ValidateAll(c, ps);
      c'.lastValid == if |acc| == 0 then c.lastValid else Some(acc[|acc| - 1])
    ensures var (c', acc) := ValidateAll(c, ps);
      c' == c.(lastValid := c'.lastValid)
    ensures forall q :: q in ValidateAll(c, ps).1 ==> q in ps && q.Intact()
    decreases |ps|
  {
    if |ps| > 0 {
      var (ok, c1) := IsValid(c, ps[0]);
      ValidateAllRecordsLast(c1, ps[1..]);
    }
  }

  /** In a consecutive run the packet `j - i` places later carries the
      number `j - i` higher, in 32-bit arithmetic; so in a run shorter than
      2^32 packets no sequence number appears twice. */
  lemma {:induction false} ConsecutiveDistinct(ps: seq<Packet>, i: int, j: int)
    requires Consecutive(ps)
    requires 0 <= i < j < |ps|
    ensures ps[j].seqNr == Wrap(ps[i].seqNr + (j - i))
    ensures |ps| <= 0x1_0000_0000 ==> ps[i].seqNr != ps[j].seqNr
    decreases j - i
  {
    if j > i + 1 {
      ConsecutiveDistinct(ps, i, j - 1);
      WrapAdd(ps[i].seqNr + (j - 1 - i), 1);
    }
    if |ps| <= 0x1_0000_0000 {
      WrapShiftDiffers(ps[i].seqNr, j - i);
    }
  }

  /** The successor of the largest sequence number is the smallest one, as
      in Java's `int` arithmetic: an established connection whose last
      accepted packet is numbered 2^31 - 1 accepts an intact data packet
      numbered -2^31. */
  lemma SequenceWrapsAtMax(c: Conn, p: Packet)
    requires c.state == ESTABLISHED
    requires c.lastValid.Some? && c.lastValid.value.seqNr == 0x7FFF_FFFF
    requires p.flag == NONE && p.Intact() && p.seqNr == -0x8000_0000
    ensures IsValid(c, p) == (true, c.(lastValid := Some(p)))
  {
  }
}
