/** Data transfer on an established connection: `send` hands one message to
    the retransmitting sender and waits for a valid acknowledgement;
    `receive` waits for a valid packet, re-acknowledging the last accepted
    one after every invalid arrival. */
module Transfer {
  import opened Options
  import opened Packets
  import opened Connection

  /** `c'` differs from `c` at most in its counter and its last accepted
      packet. */
  predicate SameEndpoint(c: Conn, c': Conn) {
    c'.(nextSequenceNo := c.nextSequenceNo, lastValid := c.lastValid) == c
  }

  /** `q` passed the gates of the validator that do not depend on the
      counter (flag, checksum, sequence number), for a connection that held
      `c`'s state and last accepted packet. The acknowledgement-number gate
      is not part of it. */
  predicate PassesCounterFreeChecks(c: Conn, q: Packet) {
    FlagAdmitted(c.state, q.flag) && q.Intact() && InSequence(c, q)
  }

  // ---------------------------------------------------------------------
  // send
  // ---------------------------------------------------------------------

  /** The loop that follows the first retransmitting send: every reply that
      is a packet failing validation causes another retransmission; the
      first valid packet ends the send; a null reply raises "no ack
      received". Each element of `replies` is what one retransmitting send
      produced. */
  function AwaitAck(c: Conn, replies: seq<Reply>): (r: Outcome<()>)
    ensures !r.Return? ==> r.conn == c
    ensures r.Return? ==>
      && r.conn == c.(lastValid := r.conn.lastValid)
      && r.conn.lastValid.Some? && Got(r.conn.lastValid.value) in replies
      && Admits(c, r.conn.lastValid.value)
    ensures r.Raise? ==>
      || (r.error == IoError && NoPacket in replies)
      || (r.error == ChannelFault && Fault in replies)
    ensures r.Pending? ==> forall q :: q in replies ==> q.Got? && !Admits(c, q.packet)
    decreases |replies|
  {
    if |replies| == 0 then Pending(c)
    else match replies[0]
      case NoPacket => Raise(c, IoError)
      case Fault => Raise(c, ChannelFault)
      case Got(ack) =>
        var (ok, c1) := IsValid(c, ack);
        if ok then Return(c1, ())
        else
          var r := AwaitAck(c, replies[1..]);
          assert forall q :: q in replies[1..] ==> q in replies;
          r
  }

  /** Position of the first reply that is not an invalid packet: the one
      that decides how `AwaitAck` ends (`|replies|` if there is none). */
  function FirstDecisive(c: Conn, replies: seq<Reply>): (i: nat)
    ensures i <= |replies|
    ensures forall j :: 0 <= j < i ==> replies[j].Got? && !Admits(c, replies[j].packet)
    ensures i < |replies| ==> !(replies[i].Got? && !Admits(c, replies[i].packet))
    decreases |replies|
  {
    if |replies| == 0 then 0
    else if replies[0].Got? && !Admits(c, replies[0].packet) then 1 + FirstDecisive(c, replies[1..])
    else 0
  }

  /** The send loop skips exactly the invalid packets and is decided by the
      first reply that is not one: a valid packet is recorded, a null raises
      an I/O error, an exception passes through. */
  lemma {:induction false} AwaitAckFirstDecides(c: Conn, replies: seq<Reply>)
    ensures var i := FirstDecisive(c, replies);
      AwaitAck(c, replies) ==
        if i == |replies| then Pending(c)
        else match replies[i]
          case Got(ack) => Return(c.(lastValid := Some(ack)), ())
          case NoPacket => Raise(c, IoError)
          case Fault => Raise(c, ChannelFault)
    decreases |replies|
  {
    if |replies| > 0 && replies[0].Got? && !Admits(c, replies[0].packet) {
      AwaitAckFirstDecides(c, replies[1..]);
      assert replies[1..][FirstDecisive(c, replies[1..])..] == replies[FirstDecisive(c, replies)..];
    }
  }

  /** Send one message: refused unless ESTABLISHED; otherwise build the data
      packet (the first outgoing-packet outcome) and run the retransmission
      loop over the replies. */
  function Send(c: Conn, ch: Channel): (r: Outcome<()>)
    ensures c.state != ESTABLISHED ==> r == Raise(c, NotConnected)
    ensures SameEndpoint(c, r.conn)
    ensures !r.Return? ==> r.conn.lastValid == c.lastValid
    ensures r.Return? ==>
      && c.state == ESTABLISHED && r.conn.lastValid.Some?
      && var ack := r.conn.lastValid.value;
      && Got(ack) in ch.replies
      && PassesCounterFreeChecks(c, ack)
      && (ack.flag == ACK ==> ack.ackNr == Wrap(r.conn.nextSequenceNo - 1))
    ensures r.Raise? && r.error == IoError ==> NoPacket in ch.replies
    ensures r.Raise? && r.error == NotConnected ==> c.state != ESTABLISHED
    ensures r.Raise? && r.error == ChannelFault ==>
      (|ch.sends| > 0 && ch.sends[0].thrown) || Fault in ch.replies
    ensures r.Raise? ==> r.error != NullPacket
  {
    if c.state != ESTABLISHED then Raise(c, NotConnected)
    else if |ch.sends| == 0 then Pending(c)
    else
      var c1 := Advance(c, ch.sends[0]);
      if ch.sends[0].thrown then Raise(c1, ChannelFault)
      else AwaitAck(c1, ch.replies)
  }

  /** A null reply to the retransmitting send, before any valid ACK, makes
      `send` raise an I/O error without recording anything. */
  lemma SendWithoutAckFails(c: Conn, ch: Channel)
    requires c.state == ESTABLISHED
    requires |ch.sends| > 0 && !ch.sends[0].thrown
    requires |ch.replies| > 0 && ch.replies[0] == NoPacket
    ensures Send(c, ch).Raise? && Send(c, ch).error == IoError
    ensures Send(c, ch).conn.lastValid == c.lastValid
  {
  }

  // ---------------------------------------------------------------------
  // receive
  // ---------------------------------------------------------------------

  /** The receive loop, entered with the packet `p` just received: if `p`
      passes validation it is acknowledged and its payload returned;
      otherwise the counter is stepped back, the last accepted packet is
      acknowledged again, and the next reply is awaited. */
  function ReceiveLoop(c: Conn, p: Packet, sends: seq<Emit>, replies: seq<Reply>): (r: Outcome<string>)
    ensures SameEndpoint(c, r.conn)
    ensures r.conn.lastValid == c.lastValid
      || (r.conn.lastValid.Some? && PassesCounterFreeChecks(c, r.conn.lastValid.value)
          && (r.conn.lastValid.value == p || Got(r.conn.lastValid.value) in replies))
    ensures r.Return? ==>
      && r.conn.lastValid.Some? && r.value == r.conn.lastValid.value.payload
      && PassesCounterFreeChecks(c, r.conn.lastValid.value)
      && (r.conn.lastValid.value == p || Got(r.conn.lastValid.value) in replies)
    ensures r.Raise? && r.error == NotConnected ==> c.state != ESTABLISHED
    decreases |replies|
  {
    var (ok, c1) := IsValid(c, p);
    if ok then
      if |sends| == 0 then Pending(c1)
      else
        var c2 := Advance(c1, sends[0]);
        if sends[0].thrown then Raise(c2, ChannelFault) else Return(c2, p.payload)
    else if c.state != ESTABLISHED then Raise(c, NotConnected)
    else
      var c2 := c.(nextSequenceNo := Wrap(c.nextSequenceNo - 1));
      if |sends| == 0 then Pending(c2)
      else
        var c3 := Advance(c2, sends[0]);
        if sends[0].thrown then Raise(c3, ChannelFault)
        else if |replies| == 0 then Pending(c3)
        else match replies[0]
          case Fault => Raise(c3, ChannelFault)
          case NoPacket => Raise(c3, NullPacket)
          case Got(q) =>
            var r := ReceiveLoop(c3, q, sends[1..], replies[1..]);
            assert forall x :: x in replies[1..] ==> x in replies;
            r
  }

  /** Position of the first packet of `ps` that passes the gates which do
      not depend on the counter (`|ps|` if there is none). */
  function FirstInSequence(c: Conn, ps: seq<Packet>): (k: nat)
    ensures k <= |ps|
    ensures forall j :: 0 <= j < k ==> !PassesCounterFreeChecks(c, ps[j])
    ensures k < |ps| ==> PassesCounterFreeChecks(c, ps[k])
    decreases |ps|
  {
    if |ps| == 0 then 0
    else if PassesCounterFreeChecks(c, ps[0]) then 0
    else 1 + FirstInSequence(c, ps[1..])
  }

  /** When no packet is an ACK (so the counter plays no part) and every
      acknowledgement goes out, the receive loop delivers the payload of the
      first packet, in arrival order, that passes validation; everything
      before it is skipped. */
  lemma {:induction false} ReceiveDeliversFirstInSequence(c: Conn, p: Packet, sends: seq<Emit>, replies: seq<Reply>, ps: seq<Packet>)
    requires c.state == ESTABLISHED
    requires |replies| == |ps| && p.flag != ACK
    requires forall i :: 0 <= i < |ps| ==> replies[i] == Got(ps[i]) && ps[i].flag != ACK
    requires forall i :: 0 <= i < |sends| ==> !sends[i].thrown
    requires FirstInSequence(c, [p] + ps) <= |ps| < |sends|
    ensures var q := ([p] + ps)[FirstInSequence(c, [p] + ps)];
      var r := ReceiveLoop(c, p, sends, replies);
      r.Return? && r.value == q.payload && r.conn.lastValid == Some(q)
    decreases |replies|
  {
    var all := [p] + ps;
    if !PassesCounterFreeChecks(c, p) {
      assert !Admits(c, p);
      var c3 := Advance(c.(nextSequenceNo := Wrap(c.nextSequenceNo - 1)), sends[0]);
      assert all[1..] == ps;
      assert ps == [ps[0]] + ps[1..];
      ReceiveLoopSkips(c, p, sends, replies, ps[0]);
      ReceiveDeliversFirstInSequence(c3, ps[0], sends[1..], replies[1..], ps[1..]);
      assert FirstInSequence(c3, ps) == FirstInSequence(c, ps) by {
        FirstInSequenceCounterFree(c, c3, ps);
      }
    } else {
      assert Admits(c, p);
    }
  }

  /** A refused packet, in ESTABLISHED, costs one acknowledgement and hands
      the loop on to the next reply with the counter stepped back and then
      advanced by that acknowledgement. */
  lemma ReceiveLoopSkips(c: Conn, p: Packet, sends: seq<Emit>, replies: seq<Reply>, q: Packet)
    requires c.state == ESTABLISHED && !Admits(c, p)
    requires |sends| > 0 && !sends[0].thrown
    requires |replies| > 0 && replies[0] == Got(q)
    ensures ReceiveLoop(c, p, sends, replies)
      == ReceiveLoop(Advance(c.(nextSequenceNo := Wrap(c.nextSequenceNo - 1)), sends[0]), q, sends[1..], replies[1..])
  {
  }

  /** The position of the first in-sequence packet does not depend on the
      counter. */
  lemma {:induction false} FirstInSequenceCounterFree(c: Conn, d: Conn, ps: seq<Packet>)
    requires d == c.(nextSequenceNo := d.nextSequenceNo)
    ensures FirstInSequence(c, ps) == FirstInSequence(d, ps)
    decreases |ps|
  {
    if |ps| > 0 {
      FirstInSequenceCounterFree(c, d, ps[1..]);
    }
  }

  /** Receive one message: refused unless ESTABLISHED; otherwise the first
      reply starts the receive loop. A null first reply reaches the
      validator and fails there. */
  function Receive(c: Conn, ch: Channel): (r: Outcome<string>)
    ensures c.state != ESTABLISHED ==> r == Raise(c, NotConnected)
    ensures SameEndpoint(c, r.conn)
    ensures r.Raise? && r.error == NotConnected ==> c.state != ESTABLISHED
    ensures r.conn.lastValid == c.lastValid
      || (r.conn.lastValid.Some? && PassesCounterFreeChecks(c, r.conn.lastValid.value)
          && Got(r.conn.lastValid.value) in ch.replies)
    ensures r.Return? ==>
      && c.state == ESTABLISHED && r.conn.lastValid.Some?
      && var q := r.conn.lastValid.value;
      && r.value == q.payload && Got(q) in ch.replies
      && q.flag != SYN && q.flag != SYN_ACK && q.Intact()
      && (c.lastValid.Some? ==> q.seqNr == Wrap(c.lastValid.value.seqNr + 1))
  {
    if c.state != ESTABLISHED then Raise(c, NotConnected)
    else if |ch.replies| == 0 then Pending(c)
    else match ch.replies[0]
      case Fault => Raise(c, ChannelFault)
      case NoPacket => Raise(c, NullPacket)
      case Got(p) => ReceiveLoop(c, p, ch.sends, ch.replies[1..])
  }

  /** Duplicates are never delivered: if every packet the channel brings
      repeats the last accepted sequence number or an earlier one, `receive`
      returns nothing and the last accepted packet stays as it was. At the
      top of the 32-bit range the successor wraps to the lowest number, which
      is then not a repeat, so the last accepted number is below the top. */
  lemma ReceiveIgnoresDuplicates(c: Conn, ch: Channel)
    requires c.lastValid.Some? && c.lastValid.value.seqNr < 0x7FFF_FFFF
    requires forall x :: x in ch.replies && x.Got? ==> x.packet.seqNr <= c.lastValid.value.seqNr
    ensures !Receive(c, ch).Return?
    ensures Receive(c, ch).conn.lastValid == c.lastValid
  {
  }

  /** Two receives in a row deliver packets whose sequence numbers are
      consecutive. */
  lemma ReceiveTwiceConsecutive(c: Conn, ch1: Channel, ch2: Channel)
    ensures var r1 := Receive(c, ch1);
      var r2 := Receive(r1.conn, ch2);
      r1.Return? && r2.Return? ==>
        && r1.conn.lastValid.Some? && r2.conn.lastValid.Some?
        && r2.conn.lastValid.value.seqNr == Wrap(r1.conn.lastValid.value.seqNr + 1)
  {
  }
}
